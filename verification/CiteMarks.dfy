/**
 The streaming mark filter of daemon/citemarks.go: reference marks a model writes out of
 habit are taken out of text as it streams, or rewritten as ordinary words, while code
 fences, edit blocks and inline code pass through byte for byte.

 This module is the filter's state and one step of it as functions; `CiteMarkFilter` in
 CiteMarkStream.dfy is the object that runs them.
 */
module CiteMarks {
  import opened Bytes
  import opened Utf8

  const MAX_CITE_MARK_RUNES := 300

  const OPEN_MARK := 0x3010   // the opening bracket
  const CLOSE_MARK := 0x3011  // the closing bracket
  const DAGGER := 0x2020
  const NEWLINE := 0x0A
  const SPACE := 0x20
  const TAB := 0x09
  const BACKTICK := 0x60
  const TILDE := 0x7E

  const OPEN_BYTES: Str := [0xE3, 0x80, 0x90]
  const CLOSE_BYTES: Str := [0xE3, 0x80, 0x91]

  const EDIT_SEARCH_LINE: Str := Ascii("<<<<<<< SEARCH")
  const EDIT_REPLACE_LINE: Str := Ascii(">>>>>>> REPLACE")

  // ---------------------------------------------------------------- what a mark is

  // unicode.IsSpace
  predicate IsSpace(r: int) {
    0x09 <= r <= 0x0D || r == 0x20 || r == 0x85 || r == 0xA0 || r == 0x1680 || 0x2000 <= r <= 0x200A
    || r == 0x2028 || r == 0x2029 || r == 0x202F || r == 0x205F || r == 0x3000
  }

  function TrimLeft(cs: seq<Char>): seq<Char> {
    if cs != [] && IsSpace(cs[0].r) then TrimLeft(cs[1..]) else cs
  }

  function TrimRight(cs: seq<Char>): seq<Char> {
    if cs != [] && IsSpace(cs[|cs| - 1].r) then TrimRight(cs[..|cs| - 1]) else cs
  }

  // strings.TrimSpace
  function TrimSpace(s: Str): Str {
    Raw(TrimRight(TrimLeft(Chars(s))))
  }

  // What stands between the brackets, trimmed.
  function Inside(text: Str): Str {
    var t := if OPEN_BYTES <= text then text[|OPEN_BYTES|..] else text;
    TrimSpace(if Suffix(CLOSE_BYTES, t) then t[..|t| - |CLOSE_BYTES|] else t)
  }

  predicate IsPlainAscii(s: Str) {
    s != [] && forall i :: 0 <= i < |s| ==> 0x20 <= s[i] <= 0x7E
  }

  predicate IsDigit(b: Byte) {
    0x30 <= b <= 0x39
  }

  predicate IsSeparator(b: Byte) {
    b == 0x20 || b == 0x3A || b == 0x2C || b == 0x2E || b == 0x2D
  }

  // ^[0-9][0-9 :,.\-]*$
  predicate DigitsAlone(s: Str) {
    s != [] && IsDigit(s[0]) &&
    forall i :: 1 <= i < |s| ==> IsDigit(s[i]) || IsSeparator(s[i])
  }

  // The characters an address may go on with: [^\s"'<>{}] less the brackets and the dagger.
  predicate AddressRune(r: int) {
    !(r == 0x09 || r == 0x0A || r == 0x0C || r == 0x0D || r == 0x20 || r == 0x22 || r == 0x27 || r == 0x3C || r == 0x3E
      || r == 0x7B || r == 0x7D || r == OPEN_MARK || r == CLOSE_MARK || r == DAGGER)
  }

  function AddressRun(cs: seq<Char>): (n: nat)
    ensures n <= |cs|
  {
    if cs != [] && AddressRune(cs[0].r) then 1 + AddressRun(cs[1..]) else 0
  }

  const HTTP: Str := Ascii("http://")
  const HTTPS: Str := Ascii("https://")

  predicate Spelled(cs: seq<Char>, s: Str) {
    |s| <= |cs| && forall i :: 0 <= i < |s| ==> cs[i].r == s[i]
  }

  // How many characters of an address `cs` begins with; 0 for none.
  function AddressAt(cs: seq<Char>): (n: nat)
    ensures n <= |cs|
  {
    var scheme := if Spelled(cs, HTTPS) then |HTTPS| else if Spelled(cs, HTTP) then |HTTP| else 0;
    if scheme == 0 || AddressRun(cs[scheme..]) == 0 then 0
    else scheme + AddressRun(cs[scheme..])
  }

  // addressInMark.FindString: the first address, as far as it goes.
  function FindAddress(cs: seq<Char>): Str {
    if cs == [] then []
    else if AddressAt(cs) > 0 then Raw(cs[..AddressAt(cs)])
    else FindAddress(cs[1..])
  }

  // What becomes of a closed mark: left as written, or replaced by its kept text; an empty
  // text removes it.
  datatype Verdict = Leave | Keep(text: Str)

  // The decision of resolveMark about the text of a mark, brackets included.
  function Judge(text: Str, dagger: bool, cjk: bool): Verdict {
    var inside := Inside(text);
    var address := FindAddress(Chars(inside));
    var habit := !cjk && IsPlainAscii(inside);
    var pointer := dagger
                   || (inside != [] && inside[0] == 0x7B && inside[|inside| - 1] == 0x7D)
                   || (habit && DigitsAlone(inside));
    if pointer then Keep(address)
    else if address != [] && inside == address then Keep(address)
    else if habit then Keep(inside)
    else Leave
  }

  // ---------------------------------------------------------------- ordinary text

  // The part of the filter that ordinary text moves. `out` is everything released so far.
  // The rules it reads text by, the Unicode tables and the decision about a mark, come with it.
  datatype Core = Core(
    isCJK: int -> bool,
    judge: (Str, bool, bool) -> Verdict,
    out: Str,
    spaces: Str,
    removed: bool,
    lineStart: Str,
    lineHasText: bool,
    fence: int,
    inEdit: bool,
    inCode: bool,
    cjk: bool,
    marks: nat)

  predicate IsBlank(r: int) {
    r == SPACE || r == TAB
  }

  // A character that a space never stands before.
  predicate EndsAClause(r: int) {
    || r == 0x0A || r == 0x2E || r == 0x2C || r == 0x3B || r == 0x3A || r == 0x21 || r == 0x3F || r == 0x29
    || r == 0x5D || r == 0x7D || r == 0x3002 || r == 0xFF0C || r == 0x3001 || r == 0xFF1B || r == 0xFF1A
    || r == 0xFF01 || r == 0xFF1F || r == 0xFF09
  }

  predicate Verbatim(c: Core) {
    c.fence != 0 || c.inEdit || c.inCode
  }

  function TrimLeftSpaces(s: Str): (r: Str)
    ensures |r| <= |s|
  {
    if s != [] && s[0] == SPACE then TrimLeftSpaces(s[1..]) else s
  }

  // ``` or ~~~, and nothing else
  predicate IsFence(mark: Str) {
    mark == [BACKTICK, BACKTICK, BACKTICK] || mark == [TILDE, TILDE, TILDE]
  }

  // readLineStart: the new state, and whether the line's opening just became a marker.
  function ReadLineStart(c: Core): (Core, bool) {
    if c.inEdit then
      if c.lineStart == EDIT_REPLACE_LINE then (c.(inEdit := false), true) else (c, false)
    else
      var mark := TrimLeftSpaces(c.lineStart);
      if |c.lineStart| - |mark| <= 3 && IsFence(mark) then
        (c.(fence := if c.fence == 0 then mark[0] else if c.fence == mark[0] then 0 else c.fence, inCode := false), true)
      else if c.fence == 0 && c.lineStart == EDIT_SEARCH_LINE then
        (c.(inEdit := true), true)
      else
        (c, false)
  }

  // track
  function Track(c: Core, ch: Char): Core {
    if ch.r == NEWLINE then
      c.(lineStart := [], lineHasText := false, inCode := false)
    else
      var c1 := if IsBlank(ch.r) then c else c.(lineHasText := true);
      var short := |c1.lineStart| < |EDIT_REPLACE_LINE|;
      var (c2, acted) := if short then ReadLineStart(c1.(lineStart := c1.lineStart + ch.raw)) else (c1, false);
      if !acted && ch.r == BACKTICK && c2.fence == 0 && !c2.inEdit then c2.(inCode := !c2.inCode) else c2
  }

  // plain: one character of ordinary text.
  function Plain(c: Core, ch: Char): Core {
    if IsBlank(ch.r) then
      if c.removed && (c.spaces != [] || !c.lineHasText) then c
      else Track(c.(spaces := c.spaces + ch.raw), ch)
    else
      var gap := if c.removed && EndsAClause(ch.r) then [] else c.spaces;
      Track(c.(out := c.out + gap + ch.raw, spaces := [], removed := false,
               cjk := c.cjk || (ch.r >= 0x1100 && c.isCJK(ch.r))), ch)
  }

  function PlainAll(c: Core, cs: seq<Char>): Core
    decreases |cs|
  {
    if cs == [] then c else PlainAll(Plain(c, cs[0]), cs[1..])
  }

  // rewrite: text where a mark stood.
  function Rewrite(c: Core, text: Str): Core {
    PlainAll(if c.lineHasText && c.spaces == [] then Plain(c, Char(SPACE, [SPACE])) else c, Chars(text))
  }

  // A mark counted, and gone or rewritten.
  function Replace(c: Core, keep: Str): Core {
    var counted := c.(marks := c.marks + 1);
    if keep == [] then counted.(removed := true)
    else Rewrite(counted, [0x28] + keep + [0x29])
  }

  function FlushSpaces(c: Core): Core {
    c.(out := if c.removed then c.out else c.out + c.spaces, spaces := [])
  }

  // ---------------------------------------------------------------- one step of the filter

  datatype Filter = Filter(core: Core, holding: bool, held: Str, heldRunes: nat, dagger: bool)

  function Start(isCJK: int -> bool, cjk: bool): Filter {
    Filter(Core(isCJK, Judge, [], [], false, [], false, 0, false, false, cjk, 0), false, [], 0, false)
  }

  // release: held text is ordinary text after all.
  function Release(f: Filter): Filter {
    f.(holding := false, held := [], core := PlainAll(f.core, Chars(f.held)))
  }

  function ResolveMark(f: Filter, text: Str): Filter {
    match f.core.judge(text, f.dagger, f.core.cjk)
    case Leave => Release(f)
    case Keep(keep) => f.(holding := false, held := [], core := Replace(f.core, keep))
  }

  function TakeFresh(f: Filter, ch: Char): Filter {
    if ch.r == OPEN_MARK && !Verbatim(f.core) then
      f.(holding := true, held := ch.raw, heldRunes := 0, dagger := false)
    else
      f.(core := Plain(f.core, ch))
  }

  function Take(f: Filter, ch: Char): Filter {
    if !f.holding then TakeFresh(f, ch)
    else if ch.r == CLOSE_MARK then
      ResolveMark(f.(held := f.held + ch.raw), f.held + ch.raw)
    else if ch.r == NEWLINE || ch.r == OPEN_MARK || f.heldRunes >= MAX_CITE_MARK_RUNES then
      TakeFresh(Release(f), ch)
    else
      f.(held := f.held + ch.raw, heldRunes := f.heldRunes + 1, dagger := f.dagger || ch.r == DAGGER)
  }

  function TakeAll(f: Filter, cs: seq<Char>): Filter
    decreases |cs|
  {
    if cs == [] then f else TakeAll(Take(f, cs[0]), cs[1..])
  }

  // flush, once a cut-off character has been taken: a mark the text ends inside is dropped
  // if it is a pointer.
  function Finish(f: Filter): Filter {
    var g := if !f.holding then f
             else if f.dagger || OPEN_BYTES + [0x7B] <= f.held then
               f.(holding := false, held := [], core := f.core.(marks := f.core.marks + 1, removed := true))
             else Release(f);
    g.(core := FlushSpaces(g.core))
  }

  // The whole filter as one function of the whole text.
  function Filtered(isCJK: int -> bool, cjk: bool, text: Str): Core {
    Finish(TakeAll(Start(isCJK, cjk), Chars(text))).core
  }

  lemma {:induction false} TakeAllAppend(f: Filter, a: seq<Char>, b: seq<Char>)
    ensures TakeAll(f, a + b) == TakeAll(TakeAll(f, a), b)
    decreases |a|
  {
    if a == [] {
      assert a + b == b;
    } else {
      assert (a + b)[0] == a[0] && (a + b)[1..] == a[1..] + b;
      TakeAllAppend(Take(f, a[0]), a[1..], b);
    }
  }

  lemma {:induction false} PlainAllAppend(c: Core, a: seq<Char>, b: seq<Char>)
    ensures PlainAll(c, a + b) == PlainAll(PlainAll(c, a), b)
    decreases |a|
  {
    if a == [] {
      assert a + b == b;
    } else {
      assert (a + b)[0] == a[0] && (a + b)[1..] == a[1..] + b;
      PlainAllAppend(Plain(c, a[0]), a[1..], b);
    }
  }
}
