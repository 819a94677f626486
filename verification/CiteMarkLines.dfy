/**
 Where the mark filter of daemon/citemarks.go takes text to be code: fenced blocks, edit blocks
 and inline code, told from the lines themselves.
 */
module CiteMarkLines {
  import opened Bytes
  import opened Utf8
  import opened CiteMarks
  import opened CiteMarkRewrite
  import opened CiteMarkVerdicts
  import CiteMarkProperties

  // ---------------------------------------------------------------- what the lines say

  // "<<<<<<< SEARCH" and ">>>>>>> REPLACE"
  const SEARCH: Str := [0x3C, 0x3C, 0x3C, 0x3C, 0x3C, 0x3C, 0x3C, 0x20, 0x53, 0x45, 0x41, 0x52, 0x43, 0x48]
  const REPLACE: Str := [0x3E, 0x3E, 0x3E, 0x3E, 0x3E, 0x3E, 0x3E, 0x20, 0x52, 0x45, 0x50, 0x4C, 0x41, 0x43, 0x45]

  // The line begins with up to three spaces and three of `mark`.
  ghost predicate Fences(line: Str, mark: Byte) {
    exists k: nat {:trigger FenceAt(line, mark, k)} :: k <= 3 && FenceAt(line, mark, k)
  }

  ghost predicate FenceAt(line: Str, mark: Byte, k: nat) {
    && k + 3 <= |line| && (forall i :: 0 <= i < k ==> line[i] == 0x20)
    && line[k] == mark && line[k + 1] == mark && line[k + 2] == mark
  }

  // What fenced block the reader is in once `line` has been read from its start; 0 for none.
  ghost function FenceAfter(fence: int, inEdit: bool, line: Str): int {
    if inEdit then fence
    else if Fences(line, 0x60) then (if fence == 0 then 0x60 else if fence == 0x60 then 0 else fence)
    else if Fences(line, 0x7E) then (if fence == 0 then 0x7E else if fence == 0x7E then 0 else fence)
    else fence
  }

  // And whether in an edit block.
  ghost predicate EditAfter(fence: int, inEdit: bool, line: Str) {
    if inEdit then !(REPLACE <= line) else fence == 0 && SEARCH <= line
  }

  // ---------------------------------------------------------------- one character more

  lemma MarkerLines()
    ensures EDIT_SEARCH_LINE == SEARCH && EDIT_REPLACE_LINE == REPLACE
  {
    assert "<<<<<<< SEARCH" == "<<<<<<< " + "SEARCH";
    assert ">>>>>>> REPLACE" == ">>>>>>> " + "REPLACE";
  }

  // A marker in ASCII is reached byte by byte.
  lemma PrefixGrows(marker: Str, line: Str, ch: Char)
    requires AsDecoded(ch) && forall i :: 0 <= i < |marker| ==> marker[i] < 0x80
    ensures marker <= line + ch.raw <==> marker <= line || marker == line + ch.raw
  {
    if marker <= line + ch.raw && |marker| > |line| {
      assert (line + ch.raw)[|line|] == ch.raw[0] == marker[|line|];
    }
    if marker <= line {
      assert marker == line[..|marker|] == (line + ch.raw)[..|marker|];
    }
  }

  function FenceMarker(mark: Byte, k: nat): Str {
    seq(k, i => SPACE as Byte) + [mark, mark, mark]
  }

  lemma FenceIsPrefix(line: Str, mark: Byte, k: nat)
    ensures FenceAt(line, mark, k) <==> FenceMarker(mark, k) <= line
  {
    var m := FenceMarker(mark, k);
    if FenceAt(line, mark, k) {
      forall i | 0 <= i < |m|
        ensures m[i] == line[i]
      {
      }
      assert m == line[..|m|];
    }
    if m <= line {
      assert forall i :: 0 <= i < |m| ==> line[i] == m[i];
      assert line[k] == m[k] && line[k + 1] == m[k + 1] && line[k + 2] == m[k + 2];
    }
  }

  lemma FenceGrows(line: Str, ch: Char, mark: Byte, k: nat)
    requires AsDecoded(ch) && mark < 0x80
    ensures FenceAt(line + ch.raw, mark, k) <==> FenceAt(line, mark, k) || line + ch.raw == FenceMarker(mark, k)
  {
    FenceIsPrefix(line, mark, k);
    FenceIsPrefix(line + ch.raw, mark, k);
    PrefixGrows(FenceMarker(mark, k), line, ch);
  }

  lemma {:induction false} TrimIsSpaces(line: Str)
    ensures var rest := TrimLeftSpaces(line);
            && |rest| <= |line| && rest == line[|line| - |rest|..]
            && (forall i :: 0 <= i < |line| - |rest| ==> line[i] == 0x20)
            && (rest != [] ==> rest[0] != 0x20)
  {
    if line != [] && line[0] == SPACE {
      TrimIsSpaces(line[1..]);
      var rest := TrimLeftSpaces(line[1..]);
      assert line[1..][|line| - 1 - |rest|..] == line[|line| - |rest|..];
      assert forall i :: 1 <= i < |line| - |rest| ==> line[i] == line[1..][i - 1];
    }
  }

  // The line so far is a fence's marker and nothing else.
  lemma MarkerIs(line: Str, mark: Byte)
    requires mark != 0x20
    ensures (|line| - |TrimLeftSpaces(line)| <= 3 && TrimLeftSpaces(line) == [mark, mark, mark]) <==>
            exists k: nat {:trigger FenceMarker(mark, k)} :: k <= 3 && line == FenceMarker(mark, k)
  {
    TrimIsSpaces(line);
    var rest := TrimLeftSpaces(line);
    if |line| - |rest| <= 3 && rest == [mark, mark, mark] {
      assert line == line[..|line| - |rest|] + rest;
      assert line == FenceMarker(mark, |line| - |rest|);
    }
    if exists k: nat {:trigger FenceMarker(mark, k)} :: k <= 3 && line == FenceMarker(mark, k) {
      var k: nat :| k <= 3 && line == FenceMarker(mark, k);
      TrimMarker(mark, k);
    }
  }

  lemma {:induction false} TrimMarker(mark: Byte, k: nat)
    requires mark != 0x20
    ensures TrimLeftSpaces(FenceMarker(mark, k)) == [mark, mark, mark]
  {
    var m := FenceMarker(mark, k);
    if k > 0 {
      assert m[0] == SPACE && m[1..] == FenceMarker(mark, k - 1);
      TrimMarker(mark, k - 1);
    } else {
      assert m == [mark, mark, mark];
    }
  }

  ghost predicate AnyFence(line: Str) {
    Fences(line, 0x60) || Fences(line, 0x7E)
  }

  // What a fence's line begins with besides spaces.
  lemma FirstAfterSpaces(line: Str, mark: Byte, k: nat)
    requires FenceAt(line, mark, k) && mark != 0x20
    ensures TrimLeftSpaces(line) == line[k..]
  {
    TrimIsSpaces(line);
    var n := |line| - |TrimLeftSpaces(line)|;
    assert line[k] != 0x20;
    assert n <= k && TrimLeftSpaces(line)[0] == line[n];
  }

  lemma FirstMark(line: Str, mark: Byte)
    requires Fences(line, mark) && mark != 0x20
    ensures |TrimLeftSpaces(line)| >= 3 && TrimLeftSpaces(line)[0] == mark && line[0] in {0x20, mark}
  {
    var k: nat :| k <= 3 && FenceAt(line, mark, k);
    FirstAfterSpaces(line, mark, k);
  }

  // A line that had a fence's marker before one character more is longer than the marker.
  lemma LongerThanMarker(line: Str, ch: Char, mark: Byte)
    requires AsDecoded(ch) && Fences(line, mark) && mark < 0x80 && mark != 0x20
    ensures |TrimLeftSpaces(line + ch.raw)| > 3
  {
    var k: nat :| k <= 3 && FenceAt(line, mark, k);
    FenceGrows(line, ch, mark, k);
    FirstAfterSpaces(line + ch.raw, mark, k);
    assert |ch.raw| > 0;
  }

  // A line is fenced by one mark only.
  lemma OneFence(line: Str, mark: Byte, other: Byte)
    requires Fences(line, mark) && mark != 0x20 && other != 0x20 && mark != other
    ensures !Fences(line, other)
  {
    FirstMark(line, mark);
    if Fences(line, other) {
      FirstMark(line, other);
    }
  }

  ghost predicate IsMarker(line: Str, mark: Byte) {
    exists k: nat {:trigger FenceMarker(mark, k)} :: k <= 3 && line == FenceMarker(mark, k)
  }

  lemma FencesGrow(line: Str, ch: Char, mark: Byte)
    requires AsDecoded(ch) && mark < 0x80 && mark != 0x20
    ensures Fences(line + ch.raw, mark) <==> Fences(line, mark) || IsMarker(line + ch.raw, mark)
    ensures IsMarker(line + ch.raw, mark) ==> !Fences(line, mark)
  {
    forall k: nat
      ensures FenceAt(line + ch.raw, mark, k) <==> FenceAt(line, mark, k) || line + ch.raw == FenceMarker(mark, k)
    {
      FenceGrows(line, ch, mark, k);
    }
    if IsMarker(line + ch.raw, mark) {
      var k: nat :| k <= 3 && line + ch.raw == FenceMarker(mark, k);
      TrimMarker(mark, k);
      if Fences(line, mark) {
        LongerThanMarker(line, ch, mark);
      }
    }
  }

  // ---------------------------------------------------------------- what the filter makes of it

  // The start of the line, as far as it is kept.
  ghost predicate KeepsStart(start: Str, line: Str) {
    if |start| < 15 then start == line else |line| >= 15
  }

  ghost predicate InLine(c: Core, fence: int, inEdit: bool, line: Str) {
    c.fence == FenceAfter(fence, inEdit, line) && (c.inEdit <==> EditAfter(fence, inEdit, line)) && KeepsStart(c.lineStart, line)
  }

  lemma NoSpaceFirst(line: Str, marker: Str, mark: Byte)
    requires marker <= line && marker != [] && marker[0] != 0x20 && marker[0] != mark && mark != 0x20
    ensures !Fences(line, mark)
  {
    assert line[0] == marker[0];
    if Fences(line, mark) {
      FirstMark(line, mark);
    }
  }

  // Reading the line's start with one character more: the marks that are complete now.
  lemma StartRead(c: Core, line: Str, ch: Char)
    requires AsDecoded(ch) && c.lineStart == line + ch.raw
    ensures var (d, acted) := ReadLineStart(c);
            && d.lineStart == c.lineStart
            && (c.inEdit ==> d.fence == c.fence && (d.inEdit <==> c.lineStart != REPLACE) && acted == !d.inEdit)
            && (!c.inEdit && (IsMarker(c.lineStart, 0x60) || IsMarker(c.lineStart, 0x7E)) ==>
                  var mark := if IsMarker(c.lineStart, 0x60) then 0x60 else 0x7E;
                  acted && !d.inEdit && d.fence == if c.fence == 0 then mark else if c.fence == mark then 0 else c.fence)
            && (!c.inEdit && !IsMarker(c.lineStart, 0x60) && !IsMarker(c.lineStart, 0x7E) ==>
                  d.fence == c.fence && (d.inEdit <==> c.fence == 0 && c.lineStart == SEARCH) && acted == d.inEdit
                  && d.inCode == c.inCode)
  {
    MarkerLines();
    MarkerIs(c.lineStart, 0x60);
    MarkerIs(c.lineStart, 0x7E);
  }

  // One character more of the line, in what it says.
  lemma LineGrows(fence: int, inEdit: bool, line: Str, ch: Char)
    requires AsDecoded(ch)
    ensures var line' := line + ch.raw;
            var f, e := FenceAfter(fence, inEdit, line), EditAfter(fence, inEdit, line);
            && (e && inEdit ==> (EditAfter(fence, inEdit, line') <==> line' != REPLACE))
            && (inEdit ==> FenceAfter(fence, inEdit, line') == f && (!e ==> !EditAfter(fence, inEdit, line')))
            && (!inEdit && (IsMarker(line', 0x60) || IsMarker(line', 0x7E)) ==>
                  var mark := if IsMarker(line', 0x60) then 0x60 else 0x7E;
                  && !EditAfter(fence, inEdit, line') && !e && f == fence
                  && FenceAfter(fence, inEdit, line') == if fence == 0 then mark else if fence == mark then 0 else fence)
            && (!inEdit && !IsMarker(line', 0x60) && !IsMarker(line', 0x7E) ==>
                  && FenceAfter(fence, inEdit, line') == f
                  && (EditAfter(fence, inEdit, line') <==> e || (fence == 0 && line' == SEARCH)))
  {
    var line' := line + ch.raw;
    PrefixGrows(REPLACE, line, ch);
    PrefixGrows(SEARCH, line, ch);
    FencesGrow(line, ch, 0x60);
    FencesGrow(line, ch, 0x7E);
    if Fences(line', 0x60) {
      OneFence(line', 0x60, 0x7E);
    }
    if SEARCH <= line' {
      NoSpaceFirst(line', SEARCH, 0x60);
      NoSpaceFirst(line', SEARCH, 0x7E);
    }
  }

  // ---------------------------------------------------------------- a whole line

  // One character of a line moves the filter as the line says.
  lemma TrackRead(c: Core, fence: int, inEdit: bool, line: Str, ch: Char)
    requires InLine(c, fence, inEdit, line) && AsDecoded(ch) && ch.r != NEWLINE
    ensures InLine(Track(c, ch), fence, inEdit, line + ch.raw)
    ensures fence == 0 && !inEdit && !AnyFence(line + ch.raw) && !(SEARCH <= line + ch.raw) ==>
              Track(c, ch).inCode == if ch.r == 0x60 then !c.inCode else c.inCode
  {
    var c1 := if IsBlank(ch.r) then c else c.(lineHasText := true);
    MarkerLines();
    if |c.lineStart| < 15 {
      StartTracked(c1.(lineStart := line + ch.raw), fence, inEdit, line, ch);
    } else {
      LongLine(fence, inEdit, line, ch);
    }
    FencesGrow(line, ch, 0x60);
    FencesGrow(line, ch, 0x7E);
    PrefixGrows(SEARCH, line, ch);
  }

  lemma StartTracked(c: Core, fence: int, inEdit: bool, line: Str, ch: Char)
    requires AsDecoded(ch) && c.lineStart == line + ch.raw && |line| < 15
    requires c.fence == FenceAfter(fence, inEdit, line) && (c.inEdit <==> EditAfter(fence, inEdit, line))
    ensures InLine(ReadLineStart(c).0, fence, inEdit, line + ch.raw)
    ensures fence == 0 && !inEdit && !AnyFence(line + ch.raw) && !(SEARCH <= line + ch.raw) ==>
              !ReadLineStart(c).1 && ReadLineStart(c).0.inCode == c.inCode
  {
    StartRead(c, line, ch);
    LineGrows(fence, inEdit, line, ch);
    FencesGrow(line, ch, 0x60);
    FencesGrow(line, ch, 0x7E);
    EditedAlready(fence, inEdit, line, ch);
  }

  // An edit block opened on this line does not close on it.
  lemma EditedAlready(fence: int, inEdit: bool, line: Str, ch: Char)
    requires AsDecoded(ch) && |line| < 15
    ensures !inEdit && SEARCH <= line ==> line + ch.raw != REPLACE && line + ch.raw != SEARCH
    ensures !inEdit && SEARCH <= line ==> !IsMarker(line + ch.raw, 0x60) && !IsMarker(line + ch.raw, 0x7E)
    ensures inEdit && REPLACE <= line ==> false
  {
    assert |SEARCH| == 14 && |REPLACE| == 15 && |ch.raw| > 0;
    if SEARCH <= line {
      assert (line + ch.raw)[0] == SEARCH[0];
      PrefixGrows(SEARCH, line, ch);
      NoSpaceFirst(line + ch.raw, SEARCH, 0x60);
      NoSpaceFirst(line + ch.raw, SEARCH, 0x7E);
      FencesGrow(line, ch, 0x60);
      FencesGrow(line, ch, 0x7E);
    }
  }

  // Past its first fifteen bytes a line says nothing new.
  lemma LongLine(fence: int, inEdit: bool, line: Str, ch: Char)
    requires AsDecoded(ch) && |line| >= 15
    ensures FenceAfter(fence, inEdit, line + ch.raw) == FenceAfter(fence, inEdit, line)
    ensures EditAfter(fence, inEdit, line + ch.raw) <==> EditAfter(fence, inEdit, line)
  {
    LineGrows(fence, inEdit, line, ch);
    assert |line + ch.raw| > 15;
    MarkersAreShort(line + ch.raw);
  }

  lemma MarkersAreShort(line: Str)
    requires |line| > 15
    ensures line != REPLACE && line != SEARCH && !IsMarker(line, 0x60) && !IsMarker(line, 0x7E)
  {
  }

  // How often a backtick stands there, in pairs or not.
  ghost predicate OddTicks(cs: seq<Char>) {
    cs != [] && (OddTicks(cs[..|cs| - 1]) != (cs[|cs| - 1].r == 0x60))
  }

  lemma PlainTracks(c: Core, fence: int, inEdit: bool, line: Str, ch: Char)
    requires !c.removed && InLine(c, fence, inEdit, line) && AsDecoded(ch) && ch.r != NEWLINE
    ensures !Plain(c, ch).removed && InLine(Plain(c, ch), fence, inEdit, line + ch.raw)
    ensures fence == 0 && !inEdit && !AnyFence(line + ch.raw) && !(SEARCH <= line + ch.raw) ==>
              Plain(c, ch).inCode == if ch.r == 0x60 then !c.inCode else c.inCode
  {
    var d := if IsBlank(ch.r) then c.(spaces := c.spaces + ch.raw)
             else c.(out := c.out + c.spaces + ch.raw, spaces := [], removed := false,
                     cjk := c.cjk || (ch.r >= 0x1100 && c.isCJK(ch.r)));
    TrackRead(d, fence, inEdit, line, ch);
    CiteMarkProperties.TrackKeeps(d, ch);
  }

  // In ordinary text: no fence and no edit block, and the line begins neither.
  ghost predicate Ordinary(fence: int, inEdit: bool, line: Str) {
    fence == 0 && !inEdit && !AnyFence(line) && !(SEARCH <= line)
  }

  // Where the reader is, `cs` having been read from the start of a line.
  ghost predicate ReadAs(c: Core, d: Core, cs: seq<Char>) {
    && !d.removed && InLine(d, c.fence, c.inEdit, Raw(cs))
    && (Ordinary(c.fence, c.inEdit, Raw(cs)) ==> d.inCode == (c.inCode != OddTicks(cs)))
  }

  lemma WasOrdinary(fence: int, inEdit: bool, line: Str, ch: Char)
    requires AsDecoded(ch) && Ordinary(fence, inEdit, line + ch.raw)
    ensures Ordinary(fence, inEdit, line)
  {
    FencesGrow(line, ch, 0x60);
    FencesGrow(line, ch, 0x7E);
    PrefixGrows(SEARCH, line, ch);
  }

  lemma TicksGo(init: seq<Char>, last: Char)
    ensures OddTicks(init + [last]) <==> OddTicks(init) != (last.r == 0x60)
  {
    assert (init + [last])[..|init|] == init;
  }

  lemma OneReadMore(c: Core, d: Core, init: seq<Char>, last: Char)
    requires ReadAs(c, d, init) && AsDecoded(last) && last.r != NEWLINE
    ensures ReadAs(c, Plain(d, last), init + [last])
  {
    RawOfSnoc(init, last);
    TicksGo(init, last);
    PlainTracks(d, c.fence, c.inEdit, Raw(init), last);
    if Ordinary(c.fence, c.inEdit, Raw(init) + last.raw) {
      WasOrdinary(c.fence, c.inEdit, Raw(init), last);
    }
  }

  lemma PlainLast(c: Core, init: seq<Char>, last: Char)
    ensures PlainAll(c, init + [last]) == Plain(PlainAll(c, init), last)
  {
    PlainAllAppend(c, init, [last]);
    assert PlainAll(PlainAll(c, init), [last]) == Plain(PlainAll(c, init), last) by {
      assert [last][1..] == [];
    }
  }

  // WHERE THE READER IS, told from the line so far: a line that begins with up to three spaces
  // and three backticks or tildes opens a fenced block, or closes the one it opened; outside one,
  // a line that begins with the SEARCH marker opens an edit block, and one that begins with the
  // REPLACE marker closes it; in ordinary text, backticks open and close inline code by turns.
  lemma {:induction false} LineDecides(c: Core, cs: seq<Char>)
    requires c.lineStart == [] && !c.removed && AllDecoded(cs)
    requires forall i :: 0 <= i < |cs| ==> cs[i].r != NEWLINE
    ensures ReadAs(c, PlainAll(c, cs), cs)
    decreases |cs|
  {
    if cs != [] {
      var init, last := cs[..|cs| - 1], cs[|cs| - 1];
      assert cs == init + [last];
      LineDecides(c, init);
      PlainLast(c, init, last);
      OneReadMore(c, PlainAll(c, init), init, last);
    } else {
      assert Raw(cs) == [];
    }
  }

  lemma RawOfSnoc(cs: seq<Char>, ch: Char)
    ensures Raw(cs + [ch]) == Raw(cs) + ch.raw
  {
    RawAppend(cs, [ch]);
    assert Raw([ch]) == ch.raw + [];
  }

  // A new line begins with nothing, and ends inline code.
  lemma NewLineBegins(c: Core, ch: Char)
    requires ch.r == NEWLINE
    ensures var d := Plain(c, ch);
            d.lineStart == [] && !d.inCode && !d.lineHasText && !d.removed && d.fence == c.fence && d.inEdit == c.inEdit
  {
  }

  // ---------------------------------------------------------------- the blanks around a mark

  ghost predicate AllBlank(cs: seq<Char>) {
    forall i :: 0 <= i < |cs| ==> cs[i].r in {0x20, 0x09}
  }

  // The full stops, commas, brackets and their like, wide ones too, and the new line.
  ghost predicate StandsClose(r: int) {
    || r in {0x0A, 0x2E, 0x2C, 0x3B, 0x3A, 0x21, 0x3F, 0x29, 0x5D, 0x7D}
    || r in {0x3002, 0xFF0C, 0x3001, 0xFF1B, 0xFF1A, 0xFF01, 0xFF1F, 0xFF09}
  }

  // A line has text as soon as something but blanks stands on it.
  lemma {:induction false} TextOnLine(c: Core, cs: seq<Char>)
    requires forall i :: 0 <= i < |cs| ==> cs[i].r != NEWLINE
    ensures PlainAll(c, cs).lineHasText <==> c.lineHasText || !AllBlank(cs)
    decreases |cs|
  {
    if cs != [] {
      TextNow(c, cs[0]);
      TextOnLine(Plain(c, cs[0]), cs[1..]);
      assert AllBlank(cs) <==> cs[0].r in {0x20, 0x09} && AllBlank(cs[1..]);
    }
  }

  lemma TextNow(c: Core, ch: Char)
    requires ch.r != NEWLINE
    ensures Plain(c, ch).lineHasText <==> c.lineHasText || ch.r !in {0x20, 0x09}
  {
    if IsBlank(ch.r) {
      TextTracked(c.(spaces := c.spaces + ch.raw), ch);
    } else {
      var gap := if c.removed && EndsAClause(ch.r) then [] else c.spaces;
      TextTracked(c.(out := c.out + gap + ch.raw, spaces := [], removed := false,
                     cjk := c.cjk || (ch.r >= 0x1100 && c.isCJK(ch.r))), ch);
    }
  }

  lemma TextTracked(c: Core, ch: Char)
    requires ch.r != NEWLINE
    ensures Track(c, ch).lineHasText <==> c.lineHasText || ch.r !in {0x20, 0x09}
  {
    var c1 := if IsBlank(ch.r) then c else c.(lineHasText := true);
    TextRead(c1.(lineStart := c1.lineStart + ch.raw));
  }

  lemma TextRead(c: Core)
    ensures ReadLineStart(c).0.lineHasText == c.lineHasText
  {
  }

  // What is left of the blanks before a mark that is gone and those after it: the ones before;
  // if there are none, the first after it, unless the mark opened its line.
  ghost function GapLeft(c: Core, blanks: seq<Char>): Str {
    if c.spaces != [] then c.spaces
    else if c.lineHasText && blanks != [] then blanks[0].raw
    else []
  }

  lemma {:induction false} BlanksAfter(c: Core, blanks: seq<Char>)
    requires c.removed && AllBlank(blanks) && AllDecoded(blanks)
    ensures var d := PlainAll(c, blanks);
            && d.removed && d.out == c.out && d.spaces == GapLeft(c, blanks) && d.marks == c.marks
            && (!Verbatim(c) ==> Rewritten(c, blanks) == FlushSpaces(d))
    decreases |blanks|
  {
    if blanks != [] {
      var d := Plain(c, blanks[0]);
      BlankAfter(c, blanks[0]);
      BlanksAfter(d, blanks[1..]);
    }
  }

  lemma BlankAfter(c: Core, ch: Char)
    requires c.removed && ch.r in {0x20, 0x09} && AsDecoded(ch)
    ensures var d := Plain(c, ch);
            && d.removed && d.out == c.out && d.marks == c.marks && d.lineHasText == c.lineHasText
            && d.spaces == GapLeft(c, [ch]) && (!Verbatim(c) ==> !Verbatim(d))
  {
    if !Verbatim(c) {
      CiteMarkProperties.BlankEntersNothing(c.(spaces := c.spaces + ch.raw), ch);
    }
  }

  // ONE GAP IS LEFT where a mark is gone, and none before what stands close to the word before
  // it, at the start of a line, or at the end of the text.
  lemma GapAfterMark(c: Core, blanks: seq<Char>, ch: Char)
    requires c.removed && AllBlank(blanks) && AllDecoded(blanks)
    requires ch.r !in {0x20, 0x09}
    ensures var d := PlainAll(c, blanks + [ch]);
            && d.out == c.out + (if StandsClose(ch.r) then [] else GapLeft(c, blanks)) + ch.raw
            && d.spaces == [] && !d.removed && d.marks == c.marks
    ensures !Verbatim(c) ==> Rewritten(c, blanks).out == c.out
  {
    BlanksAfter(c, blanks);
    PlainLast(c, blanks, ch);
    AfterGap(PlainAll(c, blanks), ch);
  }

  lemma AfterGap(c: Core, ch: Char)
    requires c.removed && ch.r !in {0x20, 0x09}
    ensures var d := Plain(c, ch);
            && d.out == c.out + (if StandsClose(ch.r) then [] else c.spaces) + ch.raw
            && d.spaces == [] && !d.removed && d.marks == c.marks
  {
    var gap := if EndsAClause(ch.r) then [] else c.spaces;
    CiteMarkProperties.TrackKeeps(c.(out := c.out + gap + ch.raw, spaces := [], removed := false,
                                     cjk := c.cjk || (ch.r >= 0x1100 && c.isCJK(ch.r))), ch);
  }
}
