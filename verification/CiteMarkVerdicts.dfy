/**
 What becomes of a reference mark (daemon/citemarks.go, resolveMark), said of the characters
 between its brackets: words, an address, a pointer into something unseen, or punctuation.
 */
module CiteMarkVerdicts {
  import opened Bytes
  import opened Utf8
  import opened CiteMarks
  import opened CiteMarkRewrite
  import CiteMarkProperties

  // ---------------------------------------------------------------- what can stand in a mark

  // The brackets at the front of `cs` and at k are a pair, on one line, no more than the bound
  // apart.
  ghost predicate ClosedMark(cs: seq<Char>, k: nat) {
    && 1 <= k < |cs| && k - 1 <= 300 && cs[0].r == 0x3010 && cs[k].r == 0x3011
    && forall i :: 1 <= i < k ==> cs[i].r !in {0x0A, 0x3010, 0x3011}
  }

  ghost predicate AllSpace(cs: seq<Char>) {
    forall i :: 0 <= i < |cs| ==> IsSpace(cs[i].r)
  }

  // `cs[lo..hi]` is `cs` without the space around it.
  ghost predicate IsTrimmed(cs: seq<Char>, lo: nat, hi: nat) {
    && lo <= hi <= |cs| && AllSpace(cs[..lo]) && AllSpace(cs[hi..])
    && (lo < hi ==> !IsSpace(cs[lo].r) && !IsSpace(cs[hi - 1].r))
  }

  ghost predicate PlainWords(w: seq<Char>) {
    w != [] && forall i :: 0 <= i < |w| ==> 0x20 <= w[i].r <= 0x7E
  }

  ghost predicate Digit(r: int) {
    '0' as int <= r <= '9' as int
  }

  // "1", "0:2", "3-5"
  ghost predicate OnlyDigits(w: seq<Char>) {
    && w != [] && Digit(w[0].r)
    && forall i :: 1 <= i < |w| ==> Digit(w[i].r) || w[i].r in {0x20, 0x3A, 0x2C, 0x2E, 0x2D}
  }

  ghost predicate InBraces(w: seq<Char>) {
    w != [] && w[0].r == 0x7B && w[|w| - 1].r == 0x7D
  }

  // A character no address goes on with: white space, quotes, angles, braces, brackets, dagger.
  ghost predicate EndsAddress(r: int) {
    r in {0x09, 0x0A, 0x0C, 0x0D, 0x20, 0x22, 0x27, 0x3C, 0x3E, 0x7B, 0x7D, 0x3010, 0x3011, 0x2020}
  }

  ghost predicate Reads(w: seq<Char>, i: nat, s: string) {
    i + |s| <= |w| && forall k :: 0 <= k < |s| ==> w[i + k].r == s[k] as int
  }

  // An address stands at i..j of `w`, as long as it goes on.
  ghost predicate AddressSpan(w: seq<Char>, i: nat, j: nat) {
    && i < j <= |w| && (j < |w| ==> EndsAddress(w[j].r))
    && ((Reads(w, i, "https://") && AddressTail(w, i + 8, j)) || (Reads(w, i, "http://") && AddressTail(w, i + 7, j)))
  }

  ghost predicate AddressTail(w: seq<Char>, i: nat, j: nat) {
    i < j <= |w| && forall k :: i <= k < j ==> !EndsAddress(w[k].r)
  }

  ghost predicate NoAddressBefore(w: seq<Char>, n: nat) {
    forall i: nat, j: nat {:trigger AddressSpan(w, i, j)} :: i < n ==> !AddressSpan(w, i, j)
  }

  ghost predicate FirstAddress(w: seq<Char>, i: nat, j: nat) {
    AddressSpan(w, i, j) && NoAddressBefore(w, i)
  }

  // ---------------------------------------------------------------- characters as they were read

  ghost predicate AsDecoded(ch: Char) {
    && (ch.r < 0x80 ==> ch.r >= 0 && ch.raw == [ch.r as Byte])
    && (ch.r >= 0x80 ==> ch.raw != [] && forall i :: 0 <= i < |ch.raw| ==> ch.raw[i] >= 0x80)
    && (ch.r == OPEN_MARK ==> ch.raw == OPEN_BYTES)
    && (ch.r == CLOSE_MARK ==> ch.raw == CLOSE_BYTES)
  }

  ghost predicate AllDecoded(cs: seq<Char>) {
    forall i {:trigger cs[i]} :: 0 <= i < |cs| ==> AsDecoded(cs[i])
  }

  lemma ThreeBytes(p: Str)
    requires WellFormed(p) && |p| == Size(p[0]) == 3
    ensures CodePoint(p, 3, 3) == (p[0] as int - 0xE0) * 0x1000 + (p[1] as int - 0x80) * 0x40 + (p[2] as int - 0x80)
  {
    assert CodePoint(p, 3, 2) == (p[0] as int - 0xE0) * 0x40 + (p[1] as int - 0x80);
  }

  lemma FourBytes(p: Str)
    requires WellFormed(p) && |p| == Size(p[0]) == 4
    ensures CodePoint(p, 4, 4) >= 0x10000
  {
    assert CodePoint(p, 4, 2) == (p[0] as int - 0xF0) * 0x40 + (p[1] as int - 0x80);
    assert CodePoint(p, 4, 3) == CodePoint(p, 4, 2) * 0x40 + (p[2] as int - 0x80);
  }

  lemma TwoBytes(p: Str)
    requires WellFormed(p) && |p| == Size(p[0]) == 2
    ensures CodePoint(p, 2, 2) < 0x800
  {
    assert CodePoint(p, 2, 1) == p[0] - 0xC0;
  }

  lemma DecodedIs(p: Str)
    requires p != []
    ensures AsDecoded(Decode(p))
  {
    AsciiIsOneByte(p);
    DecodedIsScalar(p);
    if WellFormed(p) {
      var raw := p[..Size(p[0])];
      assert WellFormed(raw);
      if |raw| == 2 {
        TwoBytes(raw);
      } else if |raw| == 3 {
        ThreeBytes(raw);
        assert raw == [raw[0], raw[1], raw[2]];
      } else {
        FourBytes(raw);
      }
    }
  }

  lemma {:induction false} CharsAreDecoded(p: Str)
    ensures AllDecoded(Chars(p))
    decreases |p|
  {
    if p != [] {
      DecodedIs(p);
      CharsAreDecoded(p[|Decode(p).raw|..]);
    }
  }

  // Written out and read again, a part of a text is the same characters.
  lemma PartReadsBack(p: Str, i: nat, j: nat)
    requires i <= j <= |Chars(p)|
    ensures Chars(Raw(Chars(p)[i..j])) == Chars(p)[i..j]
  {
    var q := SuffixChars(p, i);
    CharsOfPrefix(q, j - i);
    assert Chars(p)[i..][..j - i] == Chars(p)[i..j];
  }

  // ---------------------------------------------------------------- what stands inside

  lemma {:induction false} TrimLeftIs(cs: seq<Char>, lo: nat)
    requires lo <= |cs| && AllSpace(cs[..lo]) && (lo < |cs| ==> !IsSpace(cs[lo].r))
    ensures TrimLeft(cs) == cs[lo..]
  {
    if lo > 0 {
      assert IsSpace(cs[..lo][0].r);
      assert cs[1..][..lo - 1] == cs[..lo][1..];
      TrimLeftIs(cs[1..], lo - 1);
    }
  }

  lemma {:induction false} TrimRightIs(cs: seq<Char>, hi: nat)
    requires hi <= |cs| && AllSpace(cs[hi..]) && (hi > 0 ==> !IsSpace(cs[hi - 1].r))
    ensures TrimRight(cs) == cs[..hi]
  {
    if hi < |cs| {
      assert IsSpace(cs[hi..][|cs| - 1 - hi].r);
      assert cs[..|cs| - 1][hi..] == cs[hi..][..|cs| - 1 - hi];
      TrimRightIs(cs[..|cs| - 1], hi);
      assert cs[..|cs| - 1][..hi] == cs[..hi];
    } else {
      assert cs[..hi] == cs;
    }
  }

  lemma NothingLeft(cs: seq<Char>, at: nat)
    requires at <= |cs| && AllSpace(cs[..at]) && AllSpace(cs[at..])
    ensures TrimLeft(cs) == []
  {
    forall i | 0 <= i < |cs|
      ensures IsSpace(cs[i].r)
    {
      assert cs[i] == if i < at then cs[..at][i] else cs[at..][i - at];
    }
    assert cs[..|cs|] == cs;
    TrimLeftIs(cs, |cs|);
  }

  lemma TrimIs(cs: seq<Char>, lo: nat, hi: nat)
    requires IsTrimmed(cs, lo, hi)
    ensures TrimRight(TrimLeft(cs)) == cs[lo..hi]
  {
    if lo == hi {
      NothingLeft(cs, lo);
    } else {
      TrimLeftIs(cs, lo);
      assert cs[lo..][hi - lo..] == cs[hi..] && cs[lo..][hi - lo - 1] == cs[hi - 1];
      TrimRightIs(cs[lo..], hi - lo);
      assert cs[lo..][..hi - lo] == cs[lo..hi];
    }
  }

  lemma InsideIs(p: Str, k: nat, lo: nat, hi: nat)
    requires ClosedMark(Chars(p), k) && IsTrimmed(Chars(p)[1..k], lo, hi)
    ensures Inside(Raw(Chars(p)[..k + 1])) == Raw(Chars(p)[1..k][lo..hi])
  {
    var cs := Chars(p);
    var body := cs[1..k];
    CharsAreDecoded(p);
    assert cs[..k + 1] == [cs[0]] + (body + [cs[k]]);
    RawCons(cs[0], body + [cs[k]]);
    RawAppend(body, [cs[k]]);
    assert Raw([cs[k]]) == CLOSE_BYTES + [];
    var text := Raw(cs[..k + 1]);
    assert text == OPEN_BYTES + (Raw(body) + CLOSE_BYTES);
    assert text[3..] == Raw(body) + CLOSE_BYTES;
    assert (Raw(body) + CLOSE_BYTES)[..|Raw(body)|] == Raw(body);
    assert (Raw(body) + CLOSE_BYTES)[|Raw(body)|..] == CLOSE_BYTES;
    PartReadsBack(p, 1, k);
    TrimIs(body, lo, hi);
  }

  // ---------------------------------------------------------------- bytes and characters

  lemma {:induction false} PlainRaw(w: seq<Char>)
    requires AllDecoded(w) && forall i :: 0 <= i < |w| ==> w[i].r < 0x80
    ensures |Raw(w)| == |w| && forall i :: 0 <= i < |w| ==> Raw(w)[i] == w[i].r
  {
    if w != [] {
      PlainRaw(w[1..]);
      assert w[0].raw == [w[0].r];
    }
  }

  lemma {:induction false} HighByte(w: seq<Char>, i: nat) returns (k: nat)
    requires AllDecoded(w) && i < |w| && w[i].r >= 0x80
    ensures k < |Raw(w)| && Raw(w)[k] >= 0x80
  {
    if i == 0 {
      k := 0;
    } else {
      k := HighByte(w[1..], i - 1);
      k := |w[0].raw| + k;
    }
  }

  lemma WordsAre(w: seq<Char>)
    requires AllDecoded(w)
    ensures IsPlainAscii(Raw(w)) <==> PlainWords(w)
  {
    if forall i :: 0 <= i < |w| ==> w[i].r < 0x80 {
      PlainRaw(w);
    } else {
      var i: nat :| i < |w| && w[i].r >= 0x80;
      var k := HighByte(w, i);
    }
  }

  lemma DigitsAre(w: seq<Char>)
    requires AllDecoded(w) && PlainWords(w)
    ensures DigitsAlone(Raw(w)) <==> OnlyDigits(w)
  {
    PlainRaw(w);
  }

  lemma BracesAre(w: seq<Char>)
    requires AllDecoded(w)
    ensures (Raw(w) != [] && Raw(w)[0] == 0x7B && Raw(w)[|Raw(w)| - 1] == 0x7D) <==> InBraces(w)
  {
    if w != [] {
      var init, last := w[..|w| - 1], w[|w| - 1];
      assert w == init + [last];
      RawAppend(init, [last]);
      assert Raw([last]) == last.raw + [] == last.raw;
      assert Raw(w)[|Raw(w)| - 1] == last.raw[|last.raw| - 1];
      assert Raw(w)[0] == w[0].raw[0];
    }
  }

  // ---------------------------------------------------------------- addresses

  lemma {:induction false} RunIs(cs: seq<Char>, n: nat)
    requires n <= |cs| && (forall k :: 0 <= k < n ==> !EndsAddress(cs[k].r)) && (n < |cs| ==> EndsAddress(cs[n].r))
    ensures AddressRun(cs) == n
  {
    if n > 0 {
      RunIs(cs[1..], n - 1);
    }
  }

  lemma {:induction false} RunExists(cs: seq<Char>)
    ensures var n := AddressRun(cs);
            (forall k :: 0 <= k < n ==> !EndsAddress(cs[k].r)) && (n < |cs| ==> EndsAddress(cs[n].r))
  {
    if cs != [] && AddressRune(cs[0].r) {
      RunExists(cs[1..]);
      assert forall k :: 1 <= k < AddressRun(cs) ==> cs[k] == cs[1..][k - 1];
    }
  }

  lemma SpelledIs(w: seq<Char>, i: nat)
    requires i <= |w|
    ensures Spelled(w[i..], HTTP) <==> Reads(w, i, "http://")
    ensures Spelled(w[i..], HTTPS) <==> Reads(w, i, "https://")
    ensures |HTTP| == 7 && |HTTPS| == 8
    ensures !(Reads(w, i, "http://") && Reads(w, i, "https://"))
  {
    if Reads(w, i, "http://") && Reads(w, i, "https://") {
      assert w[i + 4].r == "http://"[4] as int && w[i + 4].r == "https://"[4] as int;
    }
  }

  // How far an address goes that begins at i.
  lemma AddressHere(w: seq<Char>, i: nat, j: nat)
    requires i <= j <= |w|
    ensures AddressSpan(w, i, j) <==> AddressAt(w[i..]) > 0 && j == i + AddressAt(w[i..])
  {
    SpelledIs(w, i);
    var scheme := if Reads(w, i, "https://") then 8 else if Reads(w, i, "http://") then 7 else 0;
    if scheme > 0 {
      assert w[i..][scheme..] == w[i + scheme..];
      var tail := w[i + scheme..];
      RunExists(tail);
      var n := AddressRun(tail);
      assert forall k :: 0 <= k < |tail| ==> tail[k] == w[i + scheme + k];
      if AddressSpan(w, i, j) {
        RunIs(tail, j - i - scheme);
      }
    }
  }

  lemma {:induction false} FindIs(w: seq<Char>, n: nat)
    requires n <= |w| && NoAddressBefore(w, n)
    ensures FindAddress(w) == FindAddress(w[n..])
  {
    if n == 0 {
      assert w[0..] == w;
    } else {
      FindIs(w, n - 1);
      var at := AddressAt(w[n - 1..]);
      AddressHere(w, n - 1, n - 1 + at);
      assert !AddressSpan(w, n - 1, n - 1 + at);
      assert w[n - 1..][1..] == w[n..];
    }
  }

  lemma FoundIs(w: seq<Char>, i: nat, j: nat)
    requires FirstAddress(w, i, j)
    ensures FindAddress(w) == Raw(w[i..j])
  {
    FindIs(w, i);
    AddressHere(w, i, j);
    SliceFrom(w, i, j);
    assert FindAddress(w[i..]) == Raw(w[i..][..AddressAt(w[i..])]);
  }

  lemma SliceFrom(w: seq<Char>, i: nat, j: nat)
    requires i <= j <= |w|
    ensures w[i..][..j - i] == w[i..j]
  {
  }

  lemma NoneFound(w: seq<Char>)
    requires NoAddressBefore(w, |w|)
    ensures FindAddress(w) == []
  {
    FindIs(w, |w|);
  }

  // There is a first address, or none.
  lemma {:induction false} FirstOrNone(w: seq<Char>, n: nat) returns (found: bool, i: nat, j: nat)
    requires n <= |w| && NoAddressBefore(w, n)
    ensures if found then FirstAddress(w, i, j) else NoAddressBefore(w, |w|)
    decreases |w| - n
  {
    if n == |w| {
      found, i, j := false, 0, 0;
    } else {
      var at := AddressAt(w[n..]);
      AddressHere(w, n, n + at);
      if at > 0 {
        found, i, j := true, n, n + at;
      } else {
        forall k: nat | n <= k <= |w|
          ensures !AddressSpan(w, n, k)
        {
          AddressHere(w, n, k);
        }
        found, i, j := FirstOrNone(w, n + 1);
      }
    }
  }

  lemma {:induction false} SomeBytes(w: seq<Char>)
    requires AllDecoded(w)
    ensures |Raw(w)| >= |w|
  {
    if w != [] {
      SomeBytes(w[1..]);
      assert AsDecoded(w[0]);
    }
  }

  lemma RawParts(w: seq<Char>, i: nat, j: nat)
    requires i <= j <= |w|
    ensures |Raw(w)| == |Raw(w[..i])| + |Raw(w[i..j])| + |Raw(w[j..])|
  {
    CiteMarkProperties.RawSplit(w, j);
    CiteMarkProperties.RawSplit(w[..j], i);
    assert w[..j][..i] == w[..i] && w[..j][i..] == w[i..j];
  }

  // The words are the address exactly if it is all of them.
  lemma WholeIs(w: seq<Char>, i: nat, j: nat)
    requires AllDecoded(w) && i < j <= |w|
    ensures Raw(w) == Raw(w[i..j]) <==> i == 0 && j == |w|
    ensures Raw(w[i..j]) != []
  {
    SomeBytes(w[i..j]);
    if i == 0 && j == |w| {
      assert w[0..|w|] == w;
    } else {
      LessIsShorter(w, i, j);
    }
  }

  lemma LessIsShorter(w: seq<Char>, i: nat, j: nat)
    requires AllDecoded(w) && i < j <= |w| && (i > 0 || j < |w|)
    ensures |Raw(w[i..j])| < |Raw(w)|
  {
    RawParts(w, i, j);
    if i > 0 {
      SomeBytes(w[..i]);
    } else {
      SomeBytes(w[j..]);
    }
  }

  // ---------------------------------------------------------------- the decision

  // A pointer into something the reader cannot see.
  ghost predicate Pointer(w: seq<Char>, cjk: bool, dagger: bool) {
    dagger || InBraces(w) || (!cjk && PlainWords(w) && OnlyDigits(w))
  }

  ghost predicate IsAddress(w: seq<Char>) {
    AddressSpan(w, 0, |w|)
  }

  // The decision about what stood in a mark, trimmed.
  lemma DecisionIs(text: Str, w: seq<Char>, dagger: bool, cjk: bool)
    requires AllDecoded(w) && Inside(text) == Raw(w) && Chars(Raw(w)) == w
    ensures Pointer(w, cjk, dagger) ==> Judge(text, dagger, cjk) == Keep(FindAddress(w))
    ensures !Pointer(w, cjk, dagger) ==>
              Judge(text, dagger, cjk) == if IsAddress(w) || (!cjk && PlainWords(w)) then Keep(Raw(w)) else Leave
    ensures PlainWords(w) || IsAddress(w) ==> Raw(w) != []
  {
    WordsAre(w);
    if PlainWords(w) {
      DigitsAre(w);
    }
    BracesAre(w);
    AddressIsWhole(w);
  }

  lemma AddressIsWhole(w: seq<Char>)
    requires AllDecoded(w)
    ensures IsAddress(w) <==> FindAddress(w) != [] && Raw(w) == FindAddress(w)
  {
    var found, i, j := FirstOrNone(w, 0);
    if found {
      FoundIs(w, i, j);
      WholeIs(w, i, j);
      if IsAddress(w) {
        assert i == 0;
        AddressHere(w, 0, j);
        AddressHere(w, 0, |w|);
      }
    } else {
      NoneFound(w);
    }
  }

  lemma {:induction false} ScanIs(cs: seq<Char>, k: nat, j: nat)
    requires ClosedMark(cs, k) && 1 <= j <= k
    ensures Scan(cs, j) == Closed(k)
    decreases k - j
  {
    if j < k {
      ScanIs(cs, k, j + 1);
    }
  }

  // ---------------------------------------------------------------- what it does to the text

  // The words stand in parentheses where the mark stood, after one space at least, unless they
  // open the line; and it is counted.
  ghost predicate Kept(c: Core, d: Core, words: Str) {
    && d.marks == c.marks + 1 && d.spaces == [] && !d.removed
    && d.out == c.out + (if c.lineHasText && c.spaces == [] then [0x20] else c.spaces) + ([0x28] + words + [0x29])
  }

  // The mark is gone, and counted.
  ghost predicate Gone(c: Core, d: Core) {
    d == c.(marks := c.marks + 1, removed := true)
  }

  // The mark stands as it was written, and is not counted.
  ghost predicate Untouched(c: Core, d: Core, mark: Str) {
    d.marks == c.marks && d.spaces == [] && !d.removed && d.out == c.out + c.spaces + mark
  }

  lemma ReadLineStartRules(c: Core)
    ensures ReadLineStart(c).0.judge == c.judge && ReadLineStart(c).0.isCJK == c.isCJK
  {
  }

  lemma TrackRules(c: Core, ch: Char)
    ensures Track(c, ch).judge == c.judge && Track(c, ch).isCJK == c.isCJK
  {
    if ch.r != NEWLINE {
      var c1 := if IsBlank(ch.r) then c else c.(lineHasText := true);
      ReadLineStartRules(c1.(lineStart := c1.lineStart + ch.raw));
    }
  }

  lemma PlainRules(c: Core, ch: Char)
    ensures Plain(c, ch).judge == c.judge && Plain(c, ch).isCJK == c.isCJK
    ensures Plain(c, ch).cjk <==> c.cjk || IsCjk(c.isCJK, ch)
  {
    if IsBlank(ch.r) {
      TrackRules(c.(spaces := c.spaces + ch.raw), ch);
      CiteMarkProperties.TrackKeeps(c.(spaces := c.spaces + ch.raw), ch);
    } else {
      var gap := if c.removed && EndsAClause(ch.r) then [] else c.spaces;
      var d := c.(out := c.out + gap + ch.raw, spaces := [], removed := false,
                  cjk := c.cjk || (ch.r >= 0x1100 && c.isCJK(ch.r)));
      TrackRules(d, ch);
      CiteMarkProperties.TrackKeeps(d, ch);
    }
  }

  ghost predicate IsCjk(isCJK: int -> bool, ch: Char) {
    ch.r >= 0x1100 && isCJK(ch.r)
  }

  // Text that nothing was removed before comes out whole.
  lemma {:induction false} PlainWrites(c: Core, cs: seq<Char>)
    requires !c.removed
    ensures var d := PlainAll(c, cs);
            d.out + d.spaces == c.out + c.spaces + Raw(cs) && !d.removed && d.marks == c.marks
    decreases |cs|
  {
    if cs == [] {
      assert c.out + c.spaces + [] == c.out + c.spaces;
    } else {
      var e := Plain(c, cs[0]);
      PlainOne(c, cs[0]);
      PlainWrites(e, cs[1..]);
      Reassociate(c.out + c.spaces, cs[0].raw, Raw(cs[1..]));
    }
  }

  lemma PlainOne(c: Core, ch: Char)
    requires !c.removed
    ensures var d := Plain(c, ch); d.out + d.spaces == c.out + c.spaces + ch.raw && !d.removed && d.marks == c.marks
  {
    if IsBlank(ch.r) {
      CiteMarkProperties.TrackKeeps(c.(spaces := c.spaces + ch.raw), ch);
      Reassociate(c.out, c.spaces, ch.raw);
    } else {
      var d := Plain(c, ch);
      CiteMarkProperties.TrackKeeps(c.(out := c.out + c.spaces + ch.raw, spaces := [], removed := false,
                    cjk := c.cjk || (ch.r >= 0x1100 && c.isCJK(ch.r))), ch);
      assert d.out + [] == d.out;
    }
  }

  // A character that neither is a blank nor ends a clause brings the space before it along.
  lemma PlainFirst(c: Core, ch: Char)
    requires !IsBlank(ch.r) && !EndsAClause(ch.r)
    ensures var d := Plain(c, ch);
            d.out == c.out + c.spaces + ch.raw && d.spaces == [] && !d.removed && d.marks == c.marks
  {
    CiteMarkProperties.TrackKeeps(c.(out := c.out + c.spaces + ch.raw, spaces := [], removed := false,
                  cjk := c.cjk || (ch.r >= 0x1100 && c.isCJK(ch.r))), ch);
  }

  lemma {:induction false} PlainLast(c: Core, cs: seq<Char>)
    requires cs != [] && !IsBlank(cs[|cs| - 1].r)
    ensures PlainAll(c, cs).spaces == []
    decreases |cs|
  {
    if |cs| == 1 {
      var gap := if c.removed && EndsAClause(cs[0].r) then [] else c.spaces;
      CiteMarkProperties.TrackKeeps(c.(out := c.out + gap + cs[0].raw, spaces := [], removed := false,
                    cjk := c.cjk || (cs[0].r >= 0x1100 && c.isCJK(cs[0].r))), cs[0]);
      assert cs[1..] == [];
    } else {
      PlainLast(Plain(c, cs[0]), cs[1..]);
    }
  }

  // Text that begins and ends with such characters.
  lemma PlainWhole(c: Core, cs: seq<Char>)
    requires cs != [] && !IsBlank(cs[0].r) && !EndsAClause(cs[0].r) && !IsBlank(cs[|cs| - 1].r)
    ensures var d := PlainAll(c, cs);
            d.out == c.out + c.spaces + Raw(cs) && d.spaces == [] && !d.removed && d.marks == c.marks
  {
    var e := Plain(c, cs[0]);
    PlainFirst(c, cs[0]);
    PlainWrites(e, cs[1..]);
    PlainLast(c, cs);
    var d := PlainAll(c, cs);
    assert d.out + [] == d.out && e.out + [] == e.out;
    Reassociate(c.out + c.spaces, cs[0].raw, Raw(cs[1..]));
  }

  lemma LeavesMark(c: Core, cs: seq<Char>)
    requires |cs| >= 2 && cs[0].r == OPEN_MARK && cs[|cs| - 1].r == CLOSE_MARK
    ensures Untouched(c, PlainAll(c, cs), Raw(cs))
  {
    PlainWhole(c, cs);
  }

  // Characters read back between two parentheses.
  lemma InParentheses(words: Str)
    ensures var cs := Chars([0x28] + words + [0x29]);
            |cs| >= 2 && cs[0].r == 0x28 && cs[|cs| - 1].r == 0x29
  {
    var p := [0x28] + words + [0x29];
    assert Decode(p) == Char(0x28, [0x28]);
    assert p[1..] == words + [0x29];
    LastIsClosing(words);
  }

  lemma {:induction false} LastIsClosing(words: Str)
    ensures var cs := Chars(words + [0x29]); cs != [] && cs[|cs| - 1].r == 0x29
    decreases |words|
  {
    var p := words + [0x29];
    if words == [] {
      assert p == [0x29] && Decode(p) == Char(0x29, [0x29]);
      assert Chars([]) == [];
    } else {
      NotTheLast(words);
      var n := |Decode(p).raw|;
      assert p[n..] == words[n..] + [0x29];
      LastIsClosing(words[n..]);
    }
  }

  // No character runs into a parenthesis after it.
  lemma NotTheLast(words: Str)
    requires words != []
    ensures |Decode(words + [0x29]).raw| <= |words|
  {
    var p := words + [0x29];
    if WellFormed(p) {
      var n := Size(p[0]);
      assert p[n - 1] >= 0x80 && p[|words|] == 0x29;
    }
  }

  // One space at least, unless the words open the line.
  ghost function Spaced(c: Core): Core {
    if c.lineHasText && c.spaces == [] then Plain(c, Char(SPACE, [SPACE])) else c
  }

  lemma SpacedIs(c: Core)
    ensures var d := Spaced(c);
            && d.out == c.out && d.marks == c.marks && d.judge == c.judge && d.isCJK == c.isCJK
            && d.spaces == if c.lineHasText && c.spaces == [] then [0x20] else c.spaces
  {
    if c.lineHasText && c.spaces == [] {
      PlainRules(c, Char(SPACE, [SPACE]));
      CiteMarkProperties.TrackKeeps(c.(spaces := [SPACE]), Char(SPACE, [SPACE]));
      assert [] + [SPACE] == [SPACE];
    }
  }

  lemma RewriteIs(c: Core, text: Str)
    ensures Rewrite(c, text) == PlainAll(Spaced(c), Chars(text))
  {
  }

  lemma ReplaceIs(c: Core, words: Str)
    requires words != []
    ensures Replace(c, words) == PlainAll(Spaced(c.(marks := c.marks + 1)), Chars([0x28] + words + [0x29]))
  {
    RewriteIs(c.(marks := c.marks + 1), [0x28] + words + [0x29]);
  }

  lemma KeepsWords(c: Core, words: Str)
    requires words != []
    ensures Kept(c, Replace(c, words), words)
  {
    ReplaceIs(c, words);
    SpacedIs(c.(marks := c.marks + 1));
    WordsShown(Spaced(c.(marks := c.marks + 1)), words);
  }

  lemma WordsShown(c: Core, words: Str)
    ensures var d := PlainAll(c, Chars([0x28] + words + [0x29]));
            d.out == c.out + c.spaces + ([0x28] + words + [0x29]) && d.spaces == [] && !d.removed && d.marks == c.marks
  {
    InParentheses(words);
    RawOfChars([0x28] + words + [0x29]);
    PlainWhole(c, Chars([0x28] + words + [0x29]));
  }

  // ---------------------------------------------------------------- in the whole text

  // The filter at character n, if no mark runs across it.
  ghost function Reached(c: Core, cs: seq<Char>, n: nat): seq<Core>
    requires n <= |cs|
    ensures |Reached(c, cs, n)| <= 1
    decreases |cs|
  {
    if n == 0 then [c]
    else match MarkAt(c, cs)
      case NoMark => Reached(Plain(c, cs[0]), cs[1..], n - 1)
      case Mark(length, keep) => if length <= n then Reached(Replace(c, keep), cs[length..], n - length) else []
  }

  lemma {:induction false} PlainKeepsRules(c: Core, cs: seq<Char>)
    ensures PlainAll(c, cs).judge == c.judge && PlainAll(c, cs).isCJK == c.isCJK
    decreases |cs|
  {
    if cs != [] {
      PlainRules(c, cs[0]);
      PlainKeepsRules(Plain(c, cs[0]), cs[1..]);
    }
  }

  lemma ReplaceKeepsRules(c: Core, keep: Str)
    ensures Replace(c, keep).judge == c.judge && Replace(c, keep).isCJK == c.isCJK
  {
    if keep != [] {
      var counted := c.(marks := c.marks + 1);
      SpacedIs(counted);
      PlainKeepsRules(Spaced(counted), Chars([0x28] + keep + [0x29]));
      ReplaceIs(c, keep);
    }
  }

  // From there on the text is rewritten as a text of its own.
  lemma {:induction false} ReachedGoesOn(c: Core, cs: seq<Char>, n: nat, d: Core)
    requires n <= |cs| && Reached(c, cs, n) == [d]
    ensures Rewritten(c, cs) == Rewritten(d, cs[n..]) && d.judge == c.judge && d.isCJK == c.isCJK
    decreases |cs|
  {
    if n == 0 {
      assert cs[0..] == cs;
    } else {
      match MarkAt(c, cs)
      case NoMark =>
        PlainRules(c, cs[0]);
        ReachedGoesOn(Plain(c, cs[0]), cs[1..], n - 1, d);
        assert cs[1..][n - 1..] == cs[n..];
      case Mark(length, keep) =>
        ReplaceKeepsRules(c, keep);
        ReachedGoesOn(Replace(c, keep), cs[length..], n - length, d);
        assert cs[length..][n - length..] == cs[n..];
    }
  }

  // Before any opening bracket that is ordinary text,
  lemma {:induction false} ReachedPlainly(c: Core, cs: seq<Char>, n: nat)
    requires n <= |cs| && forall i :: 0 <= i < n ==> cs[i].r != OPEN_MARK
    ensures Reached(c, cs, n) == [PlainAll(c, cs[..n])]
    decreases n
  {
    if n > 0 {
      assert cs[..n][1..] == cs[1..][..n - 1];
      ReachedPlainly(Plain(c, cs[0]), cs[1..], n - 1);
    }
  }

  // and CJK has been seen exactly if it stands there, or was seen before.
  lemma {:induction false} SeenIff(c: Core, cs: seq<Char>)
    ensures PlainAll(c, cs).cjk <==> c.cjk || exists i {:trigger cs[i]} :: 0 <= i < |cs| && IsCjk(c.isCJK, cs[i])
    decreases |cs|
  {
    if cs != [] {
      PlainRules(c, cs[0]);
      SeenIff(Plain(c, cs[0]), cs[1..]);
      SomeOf(c.isCJK, cs);
    }
  }

  lemma SomeOf(isCJK: int -> bool, cs: seq<Char>)
    requires cs != []
    ensures (exists i {:trigger cs[i]} :: 0 <= i < |cs| && IsCjk(isCJK, cs[i])) <==>
            IsCjk(isCJK, cs[0]) || exists i {:trigger cs[1..][i]} :: 0 <= i < |cs[1..]| && IsCjk(isCJK, cs[1..][i])
  {
    if exists i {:trigger cs[i]} :: 0 <= i < |cs| && IsCjk(isCJK, cs[i]) {
      var i :| 0 <= i < |cs| && IsCjk(isCJK, cs[i]);
      assert i > 0 ==> cs[1..][i - 1] == cs[i];
    }
    if exists i {:trigger cs[1..][i]} :: 0 <= i < |cs[1..]| && IsCjk(isCJK, cs[1..][i]) {
      var i :| 0 <= i < |cs[1..]| && IsCjk(isCJK, cs[1..][i]);
      assert cs[i + 1] == cs[1..][i];
    }
  }

  // What the mark at the front comes to, and where that leaves the filter.
  ghost predicate Comes(c: Core, d: Core, w: seq<Char>, dagger: bool, mark: Str) {
    var pointer, words := Pointer(w, c.cjk, dagger), !c.cjk && PlainWords(w);
    && (forall i: nat, j: nat {:trigger FirstAddress(w, i, j)} ::
          pointer && FirstAddress(w, i, j) ==> Kept(c, d, Raw(w[i..j])))
    && (pointer && NoAddressBefore(w, |w|) ==> Gone(c, d))
    && (!pointer && (words || IsAddress(w)) ==> Kept(c, d, Raw(w)))
    && (!pointer && !words && !IsAddress(w) ==> Untouched(c, d, mark))
    && (d.marks == c.marks + 1 <==> pointer || words || IsAddress(w))
  }

  lemma FirstIsOne(w: seq<Char>, i: nat, j: nat, a: nat, b: nat)
    requires FirstAddress(w, i, j) && FirstAddress(w, a, b)
    ensures a == i && b == j
  {
    assert !(a < i) && !(i < a);
    AddressHere(w, i, j);
    AddressHere(w, i, b);
  }

  lemma ReplacedComes(c: Core, w: seq<Char>, dagger: bool, mark: Str)
    requires AllDecoded(w) && Pointer(w, c.cjk, dagger)
    ensures Comes(c, Replace(c, FindAddress(w)), w, dagger, mark)
  {
    var found, i, j := FirstOrNone(w, 0);
    if found {
      FoundIs(w, i, j);
      WholeIs(w, i, j);
      KeepsWords(c, Raw(w[i..j]));
      forall a: nat, b: nat {:trigger FirstAddress(w, a, b)} | FirstAddress(w, a, b)
        ensures a == i && b == j
      {
        FirstIsOne(w, i, j, a, b);
      }
      assert !NoAddressBefore(w, |w|);
    } else {
      NoneFound(w);
    }
  }

  // The mark is one exactly if the rules say so.
  lemma MarkIs(c: Core, cs: seq<Char>, k: nat)
    requires ClosedMark(cs, k) && !Verbatim(c)
    ensures MarkAt(c, cs) ==
            match c.judge(Raw(cs[..k + 1]), HasDagger(cs[1..k]), c.cjk)
            case Leave => NoMark
            case Keep(keep) => Mark(k + 1, keep)
  {
    ScanIs(cs, k, 1);
  }

  // What replaces it, if anything does.
  ghost function Shown(w: seq<Char>, cjk: bool, dagger: bool): Verdict {
    if Pointer(w, cjk, dagger) then Keep(FindAddress(w))
    else if IsAddress(w) || (!cjk && PlainWords(w)) then Keep(Raw(w))
    else Leave
  }

  lemma ShownComes(c: Core, w: seq<Char>, dagger: bool, mark: seq<Char>) returns (d: Core)
    requires AllDecoded(w) && (PlainWords(w) || IsAddress(w) ==> Raw(w) != [])
    requires |mark| >= 2 && mark[0].r == OPEN_MARK && mark[|mark| - 1].r == CLOSE_MARK
    ensures d == match Shown(w, c.cjk, dagger) case Leave => PlainAll(c, mark) case Keep(keep) => Replace(c, keep)
    ensures Comes(c, d, w, dagger, Raw(mark))
  {
    if Pointer(w, c.cjk, dagger) {
      d := Replace(c, FindAddress(w));
      ReplacedComes(c, w, dagger, Raw(mark));
    } else if IsAddress(w) || (!c.cjk && PlainWords(w)) {
      d := Replace(c, Raw(w));
      KeepsWords(c, Raw(w));
    } else {
      d := PlainAll(c, mark);
      LeavesMark(c, mark);
    }
  }

  lemma StepIs(c: Core, cs: seq<Char>, k: nat, verdict: Verdict)
    requires ClosedMark(cs, k) && !Verbatim(c)
    requires c.judge(Raw(cs[..k + 1]), HasDagger(cs[1..k]), c.cjk) == verdict
    ensures var d := match verdict case Leave => PlainAll(c, cs[..k + 1]) case Keep(keep) => Replace(c, keep);
            Rewritten(c, cs) == Rewritten(d, cs[k + 1..])
  {
    MarkIs(c, cs, k);
    match verdict
    case Leave => ReleasedRun(c, cs, k + 1);
    case Keep(_) =>
  }

  // What the mark from 0 to k comes to, whose words stand at lo..hi between the brackets.
  ghost predicate ComesAt(c: Core, d: Core, cs: seq<Char>, k: nat, lo: nat, hi: nat)
    requires 1 <= k < |cs| && lo <= hi <= k - 1
  {
    Comes(c, d, cs[1..k][lo..hi], HasDagger(cs[1..k]), Raw(cs[..k + 1]))
  }

  lemma WordsRead(p: Str, k: nat, lo: nat, hi: nat, w: seq<Char>)
    requires ClosedMark(Chars(p), k) && IsTrimmed(Chars(p)[1..k], lo, hi) && w == Chars(p)[1..k][lo..hi]
    ensures AllDecoded(w) && Chars(Raw(w)) == w
  {
    var cs := Chars(p);
    SliceOfSlice(cs, 1, k, lo, hi);
    PartIs(p, cs, 1 + lo, 1 + hi, w);
  }

  lemma PartIs(p: Str, cs: seq<Char>, i: nat, j: nat, w: seq<Char>)
    requires cs == Chars(p) && i <= j <= |cs| && w == cs[i..j]
    ensures AllDecoded(w) && Chars(Raw(w)) == w
  {
    CharsAreDecoded(p);
    PartReadsBack(p, i, j);
    forall k {:trigger w[k]} | 0 <= k < |w|
      ensures AsDecoded(w[k])
    {
      assert w[k] == cs[i + k];
    }
  }

  lemma WordsDecided(p: Str, c: Core, k: nat, lo: nat, hi: nat, w: seq<Char>, dagger: bool)
    requires c.judge == Judge
    requires ClosedMark(Chars(p), k) && IsTrimmed(Chars(p)[1..k], lo, hi) && w == Chars(p)[1..k][lo..hi]
    ensures AllDecoded(w) && (PlainWords(w) || IsAddress(w) ==> Raw(w) != [])
    ensures c.judge(Raw(Chars(p)[..k + 1]), dagger, c.cjk) == Shown(w, c.cjk, dagger)
  {
    InsideIs(p, k, lo, hi);
    WordsRead(p, k, lo, hi, w);
    DecisionIs(Raw(Chars(p)[..k + 1]), w, dagger, c.cjk);
  }

  lemma MarkStep(p: Str, cs: seq<Char>, c: Core, k: nat, lo: nat, hi: nat) returns (d: Core)
    requires cs == Chars(p) && c.judge == Judge && !Verbatim(c)
    requires ClosedMark(cs, k) && IsTrimmed(cs[1..k], lo, hi)
    ensures Rewritten(c, cs) == Rewritten(d, cs[k + 1..])
    ensures ComesAt(c, d, cs, k, lo, hi)
  {
    var w, dagger, mark := cs[1..k][lo..hi], HasDagger(cs[1..k]), cs[..k + 1];
    WordsDecided(p, c, k, lo, hi, w, dagger);
    d := ShownComes(c, w, dagger, mark);
    StepIs(c, cs, k, Shown(w, c.cjk, dagger));
  }

  // WHAT A MARK COMES TO, wherever it stands outside code. Words in plain ASCII, where no CJK was
  // seen, come out in full in parentheses; so does an address alone. A pointer (with a dagger,
  // in braces, or only digits where no CJK was seen) leaves its first address in parentheses, or
  // nothing. These are counted. Anything else comes out byte for byte and is not. Then the text
  // goes on.
  lemma MarkComesTo(isCJK: int -> bool, cjk: bool, text: Str, n: nat, c: Core, k: nat, lo: nat, hi: nat) returns (d: Core)
    requires n <= |Chars(text)| && Reached(Start(isCJK, cjk).core, Chars(text), n) == [c]
    requires c.fence == 0 && !c.inEdit && !c.inCode
    requires ClosedMark(Chars(text)[n..], k) && IsTrimmed(Chars(text)[n..][1..k], lo, hi)
    ensures Filtered(isCJK, cjk, text) == Rewritten(d, Chars(text)[n..][k + 1..])
    ensures ComesAt(c, d, Chars(text)[n..], k, lo, hi)
  {
    var cs := Chars(text);
    FilteredIsRewritten(isCJK, cjk, text);
    ReachedGoesOn(Start(isCJK, cjk).core, cs, n, c);
    var p := SuffixChars(text, n);
    d := MarkStep(p, cs[n..], c, k, lo, hi);
  }

  // ---------------------------------------------------------------- marks that do not close

  // The bracket at the front is not closed before a new line, another one, or the end.
  ghost predicate Unclosed(cs: seq<Char>, k: nat) {
    && 1 <= k <= |cs| && cs[0].r == 0x3010 && (forall i :: 1 <= i < k ==> cs[i].r !in {0x0A, 0x3010, 0x3011})
    && (k == |cs| || k > 300 || cs[k].r in {0x0A, 0x3010}) && (k < |cs| && k <= 301 ==> cs[k].r != 0x3011)
  }

  lemma {:induction false} ScanBreaks(cs: seq<Char>, k: nat, j: nat)
    requires Unclosed(cs, k) && 1 <= j <= k && j <= 301 && (k < |cs| || k > 301)
    ensures Scan(cs, j).Broken?
    decreases k - j
  {
    if j < k && j <= 300 {
      ScanBreaks(cs, k, j + 1);
    }
  }

  lemma {:induction false} ScanEnds(cs: seq<Char>, j: nat)
    requires Unclosed(cs, |cs|) && 1 <= j <= |cs| <= 301
    ensures Scan(cs, j) == Cut
    decreases |cs| - j
  {
    if j < |cs| {
      ScanEnds(cs, j + 1);
    }
  }

  // A BRACKET THAT IS NOT CLOSED on its line, within 300 characters and before another, is
  // ordinary text.
  lemma UnclosedIsText(c: Core, cs: seq<Char>, k: nat)
    requires Unclosed(cs, k) && (k < |cs| || k > 301)
    ensures Rewritten(c, cs) == Rewritten(Plain(c, cs[0]), cs[1..])
  {
    ScanBreaks(cs, k, 1);
  }

  lemma BraceIs(cs: seq<Char>)
    requires AllDecoded(cs) && cs != [] && cs[0].r == OPEN_MARK
    ensures OPEN_BYTES + [0x7B] <= Raw(cs) <==> |cs| > 1 && cs[1].r == 0x7B
  {
    assert Raw(cs) == OPEN_BYTES + Raw(cs[1..]);
    if |cs| > 1 {
      assert AsDecoded(cs[1]) && Raw(cs[1..]) == cs[1].raw + Raw(cs[1..][1..]);
      assert Raw(cs)[3] == cs[1].raw[0];
    } else {
      assert Raw(cs[1..]) == [];
    }
    if |cs| > 1 && cs[1].r == 0x7B {
      assert OPEN_BYTES + [0x7B] == Raw(cs)[..4];
    }
  }

  // A MARK THE TEXT ENDS INSIDE is dropped and counted if it is a pointer, by its dagger or its
  // brace; else it comes out as it is, spaces at the end included.
  lemma CutMarkComesTo(p: Str, c: Core)
    requires Unclosed(Chars(p), |Chars(p)|) && |Chars(p)| <= 301 && c.fence == 0 && !c.inEdit && !c.inCode
    ensures var cs, d := Chars(p), Rewritten(c, Chars(p));
            if HasDagger(cs[1..]) || (|cs| > 1 && cs[1].r == 0x7B) then d.out == c.out && d.marks == c.marks + 1
            else d.out == c.out + c.spaces + p && d.marks == c.marks
  {
    var cs := Chars(p);
    CharsAreDecoded(p);
    RawOfChars(p);
    ScanEnds(cs, 1);
    BraceIs(cs);
    if HasDagger(cs[1..]) || (|cs| > 1 && cs[1].r == 0x7B) {
      assert MarkAt(c, cs) == Mark(|cs|, []);
      assert cs[|cs|..] == [];
    } else {
      assert MarkAt(c, cs) == NoMark;
      ReleasedRun(c, cs, |cs|);
      assert cs[..|cs|] == cs && cs[|cs|..] == [];
      PlainFirst(c, cs[0]);
      PlainWrites(Plain(c, cs[0]), cs[1..]);
      assert Plain(c, cs[0]).out + [] == Plain(c, cs[0]).out;
      Reassociate(c.out + c.spaces, cs[0].raw, Raw(cs[1..]));
    }
  }
}
