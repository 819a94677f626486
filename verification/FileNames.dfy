/**
 Finding files by a pattern (daemon/findfiles.go, fileNameMatcher): a glob is turned into a
 regular expression, byte by byte, and that accepts just what the glob says as long as the
 pattern has no literal beyond ASCII.
 */
module FileNames {
  import opened Bytes
  import opened Utf8
  import opened Wrappers

  // A character of a path: a Unicode scalar value. Paths are read as characters, patterns are
  // the bytes they are written in.
  type Rune = r: int | 0 <= r < 0xD800 || 0xE000 <= r < 0x110000

  type Path = seq<Rune>

  const STAR: Byte := 0x2A
  const MARK: Byte := 0x3F
  const OPEN: Byte := 0x5B
  const CLOSE: Byte := 0x5D
  const SLASH: Byte := 0x2F
  const NEWLINE: Byte := 0x0A

  // Regular expressions, as far as globs need them. A character class stands for what its text
  // says, which is left open, as is the folding of case.
  datatype Re =
    | Nothing
    | Exactly(c: Rune)
    | NotSlash
    | Dot
    | Class(text: Str)
    | Cat(first: Re, second: Re)
    | Star(each: Re)
    | Maybe(it: Re)

  datatype Alphabet = Alphabet(fold: Rune -> Rune, lower: Rune -> Rune, inClass: (Str, Rune) -> bool)

  // The expression matches all of s, case folded; a dot matches any character but a newline.
  ghost predicate Matches(a: Alphabet, r: Re, s: Path)
    decreases |s|, r
  {
    match r
    case Nothing => s == []
    case Exactly(c) => |s| == 1 && a.fold(s[0]) == a.fold(c)
    case NotSlash => |s| == 1 && s[0] != SLASH
    case Dot => |s| == 1 && s[0] != NEWLINE
    case Class(text) => |s| == 1 && a.inClass(text, s[0])
    case Cat(first, second) => exists k {:trigger s[..k]} :: 0 <= k <= |s| && Matches(a, first, s[..k]) && Matches(a, second, s[k..])
    case Star(each) => s == [] || exists k {:trigger s[..k]} :: 0 < k <= |s| && Matches(a, each, s[..k]) && Matches(a, Star(each), s[k..])
    case Maybe(it) => s == [] || Matches(a, it, s)
  }

  const IN_NAME := Star(NotSlash)
  const ANYTHING := Star(Dot)
  const FOLDERS := Maybe(Cat(Star(Dot), Exactly(SLASH)))

  // ---------------------------------------------------------------- what a glob says

  predicate NoSlash(s: Path) { forall i :: 0 <= i < |s| ==> s[i] != SLASH }
  predicate OneLine(s: Path) { forall i :: 0 <= i < |s| ==> s[i] != NEWLINE }

  // Where the class that opens at p[0] closes.
  function ClassEnd(p: Str): Option<nat> {
    if p == [] then None
    else if p[0] == CLOSE then Some(0)
    else match ClassEnd(p[1..]) case None => None case Some(n) => Some(n + 1)
  }

  predicate TwoStars(p: Str) { |p| >= 2 && p[0] == STAR && p[1] == STAR }
  predicate StarsSlash(p: Str) { TwoStars(p) && |p| >= 3 && p[2] == SLASH }

  // Every [ is closed.
  predicate Usable(p: Str)
    decreases |p|
  {
    if p == [] then true
    else if p[0] == OPEN then
      match ClassEnd(p)
      case None => false
      case Some(n) => n + 1 <= |p| && Usable(p[n + 1..])
    else Usable(p[1..])
  }

  // A star and a question mark stay inside one name, two stars cross folders, and two stars and
  // a slash may also stand for no folder at all. Anything else is a character, read as UTF-8.
  ghost predicate Glob(a: Alphabet, p: Str, s: Path)
    decreases |p|
  {
    if p == [] then s == []
    else if StarsSlash(p) then
      Glob(a, p[3..], s) ||
      exists k {:trigger s[..k]} :: 0 < k <= |s| && s[k - 1] == SLASH && OneLine(s[..k - 1]) && Glob(a, p[3..], s[k..])
    else if TwoStars(p) then
      exists k {:trigger s[..k]} :: 0 <= k <= |s| && OneLine(s[..k]) && Glob(a, p[2..], s[k..])
    else if p[0] == STAR then
      exists k {:trigger s[..k]} :: 0 <= k <= |s| && NoSlash(s[..k]) && Glob(a, p[1..], s[k..])
    else if p[0] == MARK then s != [] && s[0] != SLASH && Glob(a, p[1..], s[1..])
    else if p[0] == OPEN then
      match ClassEnd(p)
      case None => false
      case Some(n) => n + 1 <= |p| && s != [] && a.inClass(p[..n + 1], s[0]) && Glob(a, p[n + 1..], s[1..])
    else s != [] && a.fold(s[0]) == a.fold(Letter(p)) && Glob(a, p[|Decode(p).raw|..], s[1..])
  }

  // The character that p begins with.
  function Letter(p: Str): Rune
    requires p != []
  {
    DecodedIsScalar(p);
    Decode(p).r
  }

  // ---------------------------------------------------------------- the translation

  function ReOf(items: seq<Re>): Re {
    if items == [] then Nothing else Cat(items[0], ReOf(items[1..]))
  }

  // One turn of the loop: what is written and how much of the pattern it takes.
  function Piece(p: Str): Option<(Re, nat)>
    requires p != []
  {
    if StarsSlash(p) then Some((FOLDERS, 3))
    else if TwoStars(p) then Some((ANYTHING, 2))
    else if p[0] == STAR then Some((IN_NAME, 1))
    else if p[0] == MARK then Some((NotSlash, 1))
    else if p[0] == OPEN then
      match ClassEnd(p) case None => None case Some(n) => if n + 1 <= |p| then Some((Class(p[..n + 1]), n + 1)) else None
    else Some((Exactly(p[0]), 1))
  }

  function Translated(p: Str): Option<seq<Re>>
    decreases |p|
  {
    if p == [] then Some([])
    else match Piece(p)
      case None => None
      case Some((item, n)) =>
        if !(0 < n <= |p|) then None
        else match Translated(p[n..])
          case None => None
          case Some(rest) => Some([item] + rest)
  }

  function PieceAt(pattern: Str, i: nat): Option<(Re, nat)>
    requires i < |pattern|
  {
    Piece(pattern[i..])
  }

  // What the loop writes at one byte, a literal as the character of that number, and how far it moves on.
  method NextPiece(pattern: Str, i: nat) returns (item: Option<(Re, nat)>)
    requires i < |pattern|
    ensures item == PieceAt(pattern, i)
    ensures item.Some? ==> 0 < item.value.1 <= |pattern| - i
  {
    ghost var p := pattern[i..];
    var c := pattern[i];
    if c == STAR {
      if i + 1 < |pattern| && pattern[i + 1] == STAR {
        if i + 2 < |pattern| && pattern[i + 2] == SLASH {
          return Some((FOLDERS, 3));
        }
        return Some((ANYTHING, 2));
      }
      return Some((IN_NAME, 1));
    } else if c == MARK {
      return Some((NotSlash, 1));
    } else if c == OPEN {
      var end := ClassEnd(pattern[i..]);
      ClassEndIn(p);
      if end.None? {
        return None;
      }
      return Some((Class(pattern[i..][..end.value + 1]), end.value + 1));
    } else {
      return Some((Exactly(c), 1));
    }
  }

  // What comes out if `rest` is what the rest of the pattern gives.
  function After(expr: seq<Re>, rest: Option<seq<Re>>): Option<seq<Re>> {
    match rest case None => None case Some(more) => Some(expr + more)
  }

  // What was written so far, with what the rest of the pattern gives, is the whole.
  ghost predicate Underway(pattern: Str, i: nat, expr: seq<Re>) {
    i <= |pattern| && Translated(pattern) == After(expr, Translated(pattern[i..]))
  }

  method Translate(pattern: Str) returns (items: Option<seq<Re>>)
    ensures items == Translated(pattern)
  {
    var expr: seq<Re> := [];
    var i: nat := 0;
    Begin(pattern);
    while i < |pattern|
      invariant Underway(pattern, i, expr)
    {
      var item := NextPiece(pattern, i);
      if item.None? {
        Refuse(pattern, i, expr);
        return None;
      }
      var (re, n) := item.value;
      Extend(pattern, i, expr, re, n);
      expr := expr + [re];
      i := i + n;
    }
    Finish(pattern, i, expr);
    return Some(expr);
  }

  lemma Begin(pattern: Str)
    ensures Underway(pattern, 0, [])
  {
    assert pattern[0..] == pattern;
    match Translated(pattern)
    case None =>
    case Some(more) => assert [] + more == more;
  }

  lemma Refuse(pattern: Str, i: nat, expr: seq<Re>)
    requires i < |pattern| && PieceAt(pattern, i).None? && Underway(pattern, i, expr)
    ensures Translated(pattern).None?
  {
  }

  lemma Finish(pattern: Str, i: nat, expr: seq<Re>)
    requires i >= |pattern| && Underway(pattern, i, expr)
    ensures Translated(pattern) == Some(expr)
  {
    assert expr + [] == expr;
  }

  lemma Extend(pattern: Str, i: nat, expr: seq<Re>, item: Re, n: nat)
    requires i < |pattern| && PieceAt(pattern, i) == Some((item, n)) && 0 < n <= |pattern| - i
    requires Underway(pattern, i, expr)
    ensures Underway(pattern, i + n, expr + [item])
  {
    assert pattern[i..][n..] == pattern[i + n..];
    match Translated(pattern[i + n..])
    case None =>
    case Some(rest) => Reassociate(expr, [item], rest);
  }

  lemma {:induction false} ClassEndIn(p: Str)
    ensures ClassEnd(p).Some? ==> ClassEnd(p).value < |p|
  {
    if p != [] && p[0] != CLOSE {
      ClassEndIn(p[1..]);
    }
  }

  // ---------------------------------------------------------------- what the pieces accept

  lemma {:induction false} InNameIs(a: Alphabet, s: Path)
    ensures Matches(a, IN_NAME, s) <==> NoSlash(s)
  {
    if s != [] {
      if Matches(a, IN_NAME, s) {
        var k :| 0 < k <= |s| && Matches(a, NotSlash, s[..k]) && Matches(a, IN_NAME, s[k..]);
        InNameIs(a, s[k..]);
        assert k == 1;
        forall i | 0 <= i < |s|
          ensures s[i] != SLASH
        {
          assert if i == 0 then s[..1][0] == s[0] else s[1..][i - 1] == s[i];
        }
      }
      if NoSlash(s) {
        InNameIs(a, s[1..]);
        assert s[..1][0] == s[0];
        assert Matches(a, NotSlash, s[..1]);
      }
    }
  }

  lemma {:induction false} AnythingIs(a: Alphabet, s: Path)
    ensures Matches(a, ANYTHING, s) <==> OneLine(s)
  {
    if s != [] {
      if Matches(a, ANYTHING, s) {
        var k :| 0 < k <= |s| && Matches(a, Dot, s[..k]) && Matches(a, ANYTHING, s[k..]);
        AnythingIs(a, s[k..]);
        assert k == 1;
        forall i | 0 <= i < |s|
          ensures s[i] != NEWLINE
        {
          assert if i == 0 then s[..1][0] == s[0] else s[1..][i - 1] == s[i];
        }
      }
      if OneLine(s) {
        AnythingIs(a, s[1..]);
        assert s[..1][0] == s[0];
        assert Matches(a, Dot, s[..1]);
      }
    }
  }

  lemma FoldersIs(a: Alphabet, s: Path)
    requires Lawful(a)
    ensures Matches(a, FOLDERS, s) <==> s == [] || (s[|s| - 1] == SLASH && OneLine(s[..|s| - 1]))
  {
    if s != [] {
      var k := |s| - 1;
      AnythingIs(a, s[..k]);
      assert s[k..] == [s[k]];
      SlashEnds(a, s);
    }
  }

  lemma SlashEnds(a: Alphabet, s: Path)
    requires Lawful(a) && s != []
    ensures var k := |s| - 1;
            Matches(a, Cat(Star(Dot), Exactly(SLASH)), s) <==> Matches(a, Star(Dot), s[..k]) && s[k] == SLASH
  {
    var k := |s| - 1;
    assert s[k..] == [s[k]] && [s[k]][0] == s[k];
    assert Matches(a, Exactly(SLASH), s[k..]) <==> s[k] == SLASH;
    if Matches(a, Cat(Star(Dot), Exactly(SLASH)), s) {
      var j :| 0 <= j <= |s| && Matches(a, Star(Dot), s[..j]) && Matches(a, Exactly(SLASH), s[j..]);
      assert j == k;
    }
  }

  // One piece in front of the rest.
  lemma CatOf(a: Alphabet, item: Re, rest: seq<Re>, s: Path)
    ensures Matches(a, ReOf([item] + rest), s) <==>
            exists k {:trigger s[..k]} :: 0 <= k <= |s| && Matches(a, item, s[..k]) && Matches(a, ReOf(rest), s[k..])
  {
    assert ([item] + rest)[1..] == rest;
    assert ReOf([item] + rest) == Cat(item, ReOf(rest));
  }

  // A piece of one character.
  lemma OneOf(a: Alphabet, item: Re, rest: seq<Re>, s: Path)
    requires forall t: Path {:trigger Matches(a, item, t)} :: Matches(a, item, t) ==> |t| == 1
    ensures Matches(a, ReOf([item] + rest), s) <==> s != [] && Matches(a, item, [s[0]]) && Matches(a, ReOf(rest), s[1..])
  {
    CatOf(a, item, rest, s);
    if s != [] {
      assert s[..1] == [s[0]];
    }
    if Matches(a, ReOf([item] + rest), s) {
      var k :| 0 <= k <= |s| && Matches(a, item, s[..k]) && Matches(a, ReOf(rest), s[k..]);
      assert k == 1;
    }
  }

  // ---------------------------------------------------------------- glob and expression agree

  // A slash folds with nothing else, and the replacement character with nothing in Latin-1.
  ghost predicate Lawful(a: Alphabet) {
    && a.fold(SLASH) == SLASH && (forall c :: a.fold(c) == SLASH ==> c == SLASH)
    && forall b: Byte :: a.fold(b) != a.fold(RUNE_ERROR)
  }

  ghost predicate Agree(a: Alphabet, rest: seq<Re>, p: Str) {
    forall t: Path {:trigger Matches(a, ReOf(rest), t)} {:trigger Glob(a, p, t)} :: Matches(a, ReOf(rest), t) <==> Glob(a, p, t)
  }

  // What two stars and a slash may take of s.
  ghost predicate TakesFolders(s: Path, k: int) {
    0 < k <= |s| && s[k - 1] == SLASH && OneLine(s[..k - 1])
  }

  lemma FoldersTake(a: Alphabet, s: Path, k: nat)
    requires Lawful(a) && k <= |s|
    ensures Matches(a, FOLDERS, s[..k]) <==> k == 0 || TakesFolders(s, k)
  {
    FoldersIs(a, s[..k]);
    assert k > 0 ==> s[..k][..k - 1] == s[..k - 1];
  }

  lemma FoldersAgree(a: Alphabet, p: Str, rest: seq<Re>, s: Path)
    requires Lawful(a) && StarsSlash(p) && Agree(a, rest, p[3..])
    ensures Matches(a, ReOf([FOLDERS] + rest), s) <==> Glob(a, p, s)
  {
    CatOf(a, FOLDERS, rest, s);
    assert s[0..] == s;
    if Matches(a, ReOf([FOLDERS] + rest), s) {
      var k :| 0 <= k <= |s| && Matches(a, FOLDERS, s[..k]) && Matches(a, ReOf(rest), s[k..]);
      FoldersTake(a, s, k);
      assert Glob(a, p[3..], s[k..]);
    }
    if Glob(a, p, s) {
      var k := if Glob(a, p[3..], s) then 0 else TakenFolders(a, p, s);
      FoldersTake(a, s, k);
      assert Matches(a, FOLDERS, s[..k]) && Matches(a, ReOf(rest), s[k..]);
    }
  }

  ghost function TakenFolders(a: Alphabet, p: Str, s: Path): (k: nat)
    requires StarsSlash(p) && Glob(a, p, s) && !Glob(a, p[3..], s)
    ensures TakesFolders(s, k) && Glob(a, p[3..], s[k..])
  {
    var k :| 0 < k <= |s| && s[k - 1] == SLASH && OneLine(s[..k - 1]) && Glob(a, p[3..], s[k..]);
    k
  }

  lemma AnythingAgrees(a: Alphabet, p: Str, rest: seq<Re>, s: Path)
    requires TwoStars(p) && !StarsSlash(p) && Agree(a, rest, p[2..])
    ensures Matches(a, ReOf([ANYTHING] + rest), s) <==> Glob(a, p, s)
  {
    CatOf(a, ANYTHING, rest, s);
    forall k: nat | k <= |s|
      ensures Matches(a, ANYTHING, s[..k]) <==> OneLine(s[..k])
      ensures Matches(a, ReOf(rest), s[k..]) <==> Glob(a, p[2..], s[k..])
    {
      AnythingIs(a, s[..k]);
    }
  }

  lemma InNameAgrees(a: Alphabet, p: Str, rest: seq<Re>, s: Path)
    requires p != [] && p[0] == STAR && !TwoStars(p) && Agree(a, rest, p[1..])
    ensures Matches(a, ReOf([IN_NAME] + rest), s) <==> Glob(a, p, s)
  {
    CatOf(a, IN_NAME, rest, s);
    forall k: nat | k <= |s|
      ensures Matches(a, IN_NAME, s[..k]) <==> NoSlash(s[..k])
      ensures Matches(a, ReOf(rest), s[k..]) <==> Glob(a, p[1..], s[k..])
    {
      InNameIs(a, s[..k]);
    }
  }

  // No literal of the pattern is beyond ASCII; classes are copied as they are.
  predicate Plain(p: Str)
    decreases |p|
  {
    if p == [] then true
    else if p[0] == OPEN then
      match ClassEnd(p)
      case None => true
      case Some(n) => n + 1 <= |p| ==> Plain(p[n + 1..])
    else p[0] < 0x80 && Plain(p[1..])
  }

  // THE TRANSLATION SAYS WHAT THE GLOB SAYS: the expression accepts a path exactly if the glob
  // does, read directly.
  lemma {:induction false} ExpressionIsGlob(a: Alphabet, p: Str, s: Path)
    requires Lawful(a) && Translated(p).Some? && Plain(p)
    ensures Matches(a, ReOf(Translated(p).value), s) <==> Glob(a, p, s)
    decreases |p|
  {
    if p != [] {
      var (item, n) := Piece(p).value;
      var rest := Translated(p[n..]).value;
      ClassEndIn(p);
      PlainAhead(p, n);
      forall t: Path
        ensures Matches(a, ReOf(rest), t) <==> Glob(a, p[n..], t)
      {
        ExpressionIsGlob(a, p[n..], t);
      }
      assert Agree(a, rest, p[n..]);
      PieceAgrees(a, p, item, n, rest, s);
    }
  }

  lemma PieceAgrees(a: Alphabet, p: Str, item: Re, n: nat, rest: seq<Re>, s: Path)
    requires Lawful(a) && p != [] && Piece(p) == Some((item, n)) && 0 < n <= |p| && Agree(a, rest, p[n..])
    requires p[0] < 0x80
    ensures Matches(a, ReOf([item] + rest), s) <==> Glob(a, p, s)
  {
    if StarsSlash(p) {
      FoldersAgree(a, p, rest, s);
    } else if TwoStars(p) {
      AnythingAgrees(a, p, rest, s);
    } else if p[0] == STAR {
      InNameAgrees(a, p, rest, s);
    } else {
      OneOf(a, item, rest, s);
      assert s != [] ==> [s[0]][0] == s[0];
    }
  }

  lemma {:induction false} StarsAreUsable(p: Str, n: nat)
    requires n <= |p| && forall i :: 0 <= i < n ==> p[i] != OPEN
    ensures Usable(p) <==> Usable(p[n..])
  {
    if n == 0 {
      assert p[0..] == p;
    } else {
      StarsAreUsable(p[1..], n - 1);
      assert p[1..][n - 1..] == p[n..];
    }
  }

  // It is refused exactly if a class is never closed.
  lemma {:induction false} RefusedIff(p: Str)
    ensures Translated(p).Some? <==> Usable(p)
    decreases |p|
  {
    if p != [] {
      ClassEndIn(p);
      if StarsSlash(p) {
        RefusedIff(p[3..]);
        StarsAreUsable(p, 3);
      } else if TwoStars(p) {
        RefusedIff(p[2..]);
        StarsAreUsable(p, 2);
      } else if p[0] == OPEN {
        if ClassEnd(p).Some? {
          RefusedIff(p[ClassEnd(p).value + 1..]);
        }
      } else {
        RefusedIff(p[1..]);
      }
    }
  }

  // ---------------------------------------------------------------- beyond ASCII

  // Some character is in every class of the pattern; in one name, if `inName`.
  ghost predicate Fits(a: Alphabet, p: Str, inName: bool)
    decreases |p|
  {
    if p == [] then true
    else if p[0] == OPEN then
      match ClassEnd(p)
      case None => true
      case Some(n) => n + 1 <= |p| ==> InSome(a, p[..n + 1], inName) && Fits(a, p[n + 1..], inName)
    else Fits(a, p[1..], inName)
  }

  ghost predicate InSome(a: Alphabet, text: Str, inName: bool) {
    exists r: Rune :: a.inClass(text, r) && (inName ==> r != SLASH)
  }

  // The text in which every star stands for nothing and every character is the pattern's own.
  ghost function Shortest(a: Alphabet, p: Str, inName: bool): Path
    requires Usable(p) && Fits(a, p, inName)
    decreases |p|
  {
    if p == [] then []
    else if StarsSlash(p) then
      SkipsAhead(a, p, 3, inName);
      Shortest(a, p[3..], inName)
    else if TwoStars(p) then
      SkipsAhead(a, p, 2, inName);
      Shortest(a, p[2..], inName)
    else if p[0] == STAR then Shortest(a, p[1..], inName)
    else if p[0] == MARK then [0x61] + Shortest(a, p[1..], inName)
    else if p[0] == OPEN then
      var n := ClassEnd(p).value;
      var r: Rune :| a.inClass(p[..n + 1], r) && (inName ==> r != SLASH);
      [r] + Shortest(a, p[n + 1..], inName)
    else
      LetterBytes(p);
      SkipsAhead(a, p, |Decode(p).raw|, inName);
      [Letter(p)] + Shortest(a, p[|Decode(p).raw|..], inName)
  }

  lemma {:induction false} SkipsAhead(a: Alphabet, p: Str, n: nat, inName: bool)
    requires n <= |p| && forall i :: 0 <= i < n ==> p[i] != OPEN
    ensures Usable(p) <==> Usable(p[n..])
    ensures Fits(a, p, inName) <==> Fits(a, p[n..], inName)
  {
    if n == 0 {
      assert p[0..] == p;
    } else {
      SkipsAhead(a, p[1..], n - 1, inName);
      assert p[1..][n - 1..] == p[n..];
    }
  }

  // A character beyond ASCII is made of bytes beyond ASCII.
  lemma LetterBytes(p: Str)
    requires p != []
    ensures p[0] < 0x80 ==> Decode(p).raw == p[..1]
    ensures p[0] >= 0x80 ==> forall i :: 0 <= i < |Decode(p).raw| ==> p[i] >= 0x80
    ensures forall i :: 1 <= i < |Decode(p).raw| ==> 0x80 <= p[i] <= 0xBF
  {
  }

  // The shortest text is one the glob accepts,
  lemma {:induction false} ShortestIsGlob(a: Alphabet, p: Str, inName: bool)
    requires Usable(p) && Fits(a, p, inName)
    ensures Glob(a, p, Shortest(a, p, inName))
    decreases |p|
  {
    var s := Shortest(a, p, inName);
    if p != [] {
      assert s[..0] == [] && s[0..] == s;
      if StarsSlash(p) {
        SkipsAhead(a, p, 3, inName);
        ShortestIsGlob(a, p[3..], inName);
      } else if TwoStars(p) {
        SkipsAhead(a, p, 2, inName);
        ShortestIsGlob(a, p[2..], inName);
      } else if p[0] == STAR || p[0] == MARK {
        ShortestIsGlob(a, p[1..], inName);
      } else if p[0] == OPEN {
        ShortestIsGlob(a, p[ClassEnd(p).value + 1..], inName);
      } else {
        LetterBytes(p);
        SkipsAhead(a, p, |Decode(p).raw|, inName);
        ShortestIsGlob(a, p[|Decode(p).raw|..], inName);
      }
    }
  }

  // and a name, if the pattern holds no slash.
  lemma {:induction false} ShortestIsName(a: Alphabet, p: Str)
    requires Usable(p) && Fits(a, p, true) && SLASH !in p
    ensures NoSlash(Shortest(a, p, true))
    decreases |p|
  {
    if p != [] {
      if TwoStars(p) {
        SkipsAhead(a, p, 2, true);
        ShortestIsName(a, p[2..]);
      } else if p[0] == STAR || p[0] == MARK {
        ShortestIsName(a, p[1..]);
      } else if p[0] == OPEN {
        ShortestIsName(a, p[ClassEnd(p).value + 1..]);
      } else {
        LetterBytes(p);
        DecodedIsScalar(p);
        SkipsAhead(a, p, |Decode(p).raw|, true);
        ShortestIsName(a, p[|Decode(p).raw|..]);
      }
    }
  }

  // One byte taken off the middle of a character leaves a longer text to be matched.
  lemma {:induction false} LettersSplit(a: Alphabet, p: Str, n: nat, inName: bool)
    requires n <= |p| && forall i :: 0 <= i < n ==> 0x80 <= p[i] <= 0xBF
    requires Usable(p) && Fits(a, p, inName)
    ensures Usable(p[n..]) && Fits(a, p[n..], inName)
    ensures |Shortest(a, p, inName)| == n + |Shortest(a, p[n..], inName)|
  {
    if n == 0 {
      assert p[0..] == p;
    } else {
      assert Decode(p).raw == p[..1];
      LettersSplit(a, p[1..], n - 1, inName);
      assert p[1..][n - 1..] == p[n..];
    }
  }

  // What the expression accepts is no shorter than that,
  lemma {:induction false} MatchesNeeds(a: Alphabet, p: Str, s: Path, inName: bool)
    requires Translated(p).Some? && Usable(p) && Fits(a, p, inName)
    requires Matches(a, ReOf(Translated(p).value), s)
    ensures |s| >= |Shortest(a, p, inName)|
    decreases |p|
  {
    if p != [] {
      var k, n := SplitsAt(a, p, s, inName);
      MatchesNeeds(a, p[n..], s[k..], inName);
      if p[0] >= 0x80 {
        LetterRest(a, p, inName);
      }
    }
  }

  // where the first piece ends in p and in s.
  lemma SplitsAt(a: Alphabet, p: Str, s: Path, inName: bool) returns (k: nat, n: nat)
    requires p != [] && Translated(p).Some? && Usable(p)
    requires Matches(a, ReOf(Translated(p).value), s)
    ensures Piece(p).Some? && n == Piece(p).value.1 && 0 < n <= |p| && k <= |s|
    ensures Translated(p[n..]).Some? && Usable(p[n..])
    ensures if p[0] == OPEN then Fits(a, p, inName) <==> InSome(a, p[..n], inName) && Fits(a, p[n..], inName)
            else Fits(a, p, inName) <==> Fits(a, p[n..], inName)
    ensures Matches(a, Piece(p).value.0, s[..k]) && Matches(a, ReOf(Translated(p[n..]).value), s[k..])
    ensures p[0] != STAR ==> k == 1
  {
    var item := Piece(p).value.0;
    n := Piece(p).value.1;
    k := CutAt(a, item, Translated(p[n..]).value, s);
    PieceFits(a, p, inName);
    if p[0] != STAR {
      PieceIsOne(a, p, s[..k]);
    }
  }

  lemma CutAt(a: Alphabet, item: Re, rest: seq<Re>, s: Path) returns (k: nat)
    requires Matches(a, ReOf([item] + rest), s)
    ensures k <= |s| && Matches(a, item, s[..k]) && Matches(a, ReOf(rest), s[k..])
  {
    CatOf(a, item, rest, s);
    k :| 0 <= k <= |s| && Matches(a, item, s[..k]) && Matches(a, ReOf(rest), s[k..]);
  }

  lemma PieceIsOne(a: Alphabet, p: Str, s: Path)
    requires p != [] && Piece(p).Some? && p[0] != STAR
    requires Matches(a, Piece(p).value.0, s)
    ensures |s| == 1
  {
  }

  lemma PieceFits(a: Alphabet, p: Str, inName: bool)
    requires p != [] && Piece(p).Some? && Usable(p)
    ensures var n := Piece(p).value.1;
            && 0 < n <= |p| && Usable(p[n..])
            && (p[0] == OPEN ==> (Fits(a, p, inName) <==> InSome(a, p[..n], inName) && Fits(a, p[n..], inName)))
            && (p[0] != OPEN ==> (Fits(a, p, inName) <==> Fits(a, p[n..], inName)))
  {
    if p[0] != OPEN {
      SkipsAhead(a, p, Piece(p).value.1, inName);
    }
  }

  // The shortest text behind the first character is no longer than behind its first byte, and
  // shorter if it has several.
  lemma LetterRest(a: Alphabet, p: Str, inName: bool)
    requires p != [] && p[0] >= 0x80
    requires Usable(p) && Fits(a, p, inName)
    ensures Usable(p[1..]) && Fits(a, p[1..], inName)
    ensures |Shortest(a, p, inName)| == 1 + |Shortest(a, p[1..], inName)| - (|Decode(p).raw| - 1)
  {
    var n := |Decode(p).raw|;
    LetterBytes(p);
    SkipsAhead(a, p, 1, inName);
    LettersSplit(a, p[1..], n - 1, inName);
    assert p[1..][n - 1..] == p[n..];
  }

  // and it accepts the shortest text only of a pattern without literals beyond ASCII: of any
  // other, a character of several bytes asks for several characters, and a byte that is none
  // for another one.
  lemma {:induction false} ShortestMatches(a: Alphabet, p: Str, inName: bool)
    requires Lawful(a) && Translated(p).Some? && Usable(p) && Fits(a, p, inName)
    requires Matches(a, ReOf(Translated(p).value), Shortest(a, p, inName))
    ensures Plain(p)
    decreases |p|
  {
    if p != [] {
      var s := Shortest(a, p, inName);
      var k, n := SplitsAt(a, p, s, inName);
      MatchesNeeds(a, p[n..], s[k..], inName);
      if p[0] >= 0x80 {
        LetterRest(a, p, inName);
        assert false;
      } else {
        LetterBytes(p);
        assert s[k..] == Shortest(a, p[n..], inName);
        ShortestMatches(a, p[n..], inName);
        PlainAhead(p, n);
      }
    }
  }

  lemma {:induction false} PlainAhead(p: Str, n: nat)
    requires p != [] && Piece(p).Some? && n == Piece(p).value.1 && 0 < n <= |p| && p[0] < 0x80
    ensures Plain(p) <==> Plain(p[n..])
  {
    if StarsSlash(p) {
      assert p[1..][1..] == p[2..] && p[2..][1..] == p[3..];
      assert Plain(p) == Plain(p[1..]) == Plain(p[2..]);
    } else if TwoStars(p) {
      assert p[1..][1..] == p[2..];
    }
  }

  // A class without a character lets nothing through,
  lemma {:induction false} NothingMatches(a: Alphabet, p: Str, inName: bool, s: Path)
    requires Translated(p).Some? && Usable(p) && !Fits(a, p, inName)
    requires inName ==> NoSlash(s)
    ensures !Matches(a, ReOf(Translated(p).value), s)
    decreases |p|
  {
    if p != [] && Matches(a, ReOf(Translated(p).value), s) {
      var k, n := SplitsAt(a, p, s, inName);
      if !Fits(a, p[n..], inName) {
        NothingMatches(a, p[n..], inName, s[k..]);
      }
    }
  }

  // in either reading.
  lemma {:induction false} NothingGlobs(a: Alphabet, p: Str, inName: bool, s: Path)
    requires Usable(p) && !Fits(a, p, inName)
    requires inName ==> NoSlash(s)
    ensures !Glob(a, p, s)
    decreases |p|
  {
    if p != [] {
      var n := GlobTakes(p);
      if p[0] == OPEN {
        if Fits(a, p[n..], inName) {
          assert !InSome(a, p[..n], inName);
        } else if s != [] {
          NothingGlobs(a, p[n..], inName, s[1..]);
        }
      } else {
        SkipsAhead(a, p, n, inName);
        forall k: nat | k <= |s|
          ensures !Glob(a, p[n..], s[k..])
        {
          NothingGlobs(a, p[n..], inName, s[k..]);
        }
        assert s[0..] == s;
      }
    }
  }

  // How much of p one turn of the glob reads.
  function GlobTakes(p: Str): (n: nat)
    requires p != [] && Usable(p)
    ensures 0 < n <= |p|
    ensures p[0] != OPEN ==> forall i :: 0 <= i < n ==> p[i] != OPEN
  {
    LetterBytes(p);
    if StarsSlash(p) then 3 else if TwoStars(p) then 2
    else if p[0] == STAR || p[0] == MARK then 1
    else if p[0] == OPEN then ClassEnd(p).value + 1
    else |Decode(p).raw|
  }

  // THE EXACT CONDITION: the expression and the glob agree on every text (on every name, for a
  // pattern without a slash) exactly if the pattern has no literal beyond ASCII, or a class
  // that holds no character, so that neither accepts anything.
  lemma AgreesIff(a: Alphabet, p: Str, inName: bool)
    requires Lawful(a) && Usable(p) && Translated(p).Some?
    requires inName ==> SLASH !in p
    ensures AgreeOn(a, p, inName) <==> Plain(p) || !Fits(a, p, inName)
  {
    if Plain(p) {
      forall s: Path
        ensures Matches(a, ReOf(Translated(p).value), s) <==> Glob(a, p, s)
      {
        ExpressionIsGlob(a, p, s);
      }
    } else if Fits(a, p, inName) {
      ShortestLost(a, p, inName);
      if inName {
        ShortestIsName(a, p);
      }
    } else {
      forall s: Path | inName ==> NoSlash(s)
        ensures !Matches(a, ReOf(Translated(p).value), s) && !Glob(a, p, s)
      {
        NothingMatches(a, p, inName, s);
        NothingGlobs(a, p, inName, s);
      }
    }
  }

  ghost predicate AgreeOn(a: Alphabet, p: Str, inName: bool)
    requires Translated(p).Some?
  {
    forall s: Path {:trigger Glob(a, p, s)} :: (inName ==> NoSlash(s)) ==>
      (Matches(a, ReOf(Translated(p).value), s) <==> Glob(a, p, s))
  }

  // ---------------------------------------------------------------- the whole test

  // The part after the last slash.
  function NameOf(rel: Path): (name: Path)
    ensures NoSlash(name)
  {
    if rel == [] || rel[|rel| - 1] == SLASH then [] else NameOf(rel[..|rel| - 1]) + [rel[|rel| - 1]]
  }

  predicate Same(a: Alphabet, s: Path, t: Path) {
    |s| == |t| && forall i :: 0 <= i < |s| ==> a.lower(s[i]) == a.lower(t[i])
  }

  predicate HasAt(a: Alphabet, s: Path, k: int, part: Path) {
    0 <= k <= |s| - |part| && Same(a, s[k..k + |part|], part)
  }

  // The characters of a pattern.
  function Letters(p: Str): Path
    decreases |p|
  {
    if p == [] then [] else [Letter(p)] + Letters(p[|Decode(p).raw|..])
  }

  predicate IsGlob(p: Str) { STAR in p || MARK in p || OPEN in p }

  predicate NameOnly(p: Str) { SLASH !in p }

  // What a glob is held against: the path, or the name if the glob has no slash.
  function Judged(p: Str, rel: Path): Path {
    if NameOnly(p) then NameOf(rel) else rel
  }

  // fileNameMatcher's test: a plain pattern is part of the name, a glob without a slash is the
  // name, and any other glob is the path.
  ghost predicate Accepts(a: Alphabet, p: Str, rel: Path) {
    if !IsGlob(p) then
      exists k: int :: HasAt(a, NameOf(rel), k, Letters(p))
    else
      Translated(p).Some? && Matches(a, ReOf(Translated(p).value), Judged(p, rel))
  }

  // What a glob accepts, in the glob's own terms: so it is exactly if no literal is beyond
  // ASCII, or nothing is accepted at all.
  lemma {:induction false} AcceptsIsGlobIff(a: Alphabet, p: Str)
    requires Lawful(a) && IsGlob(p) && Usable(p)
    ensures (forall rel: Path :: Accepts(a, p, rel) <==> Glob(a, p, Judged(p, rel))) <==>
            Plain(p) || !Fits(a, p, NameOnly(p))
  {
    RefusedIff(p);
    AgreesIff(a, p, NameOnly(p));
    if !AgreeOn(a, p, NameOnly(p)) {
      var s: Path :| (NameOnly(p) ==> NoSlash(s)) && !(Matches(a, ReOf(Translated(p).value), s) <==> Glob(a, p, s));
      if NameOnly(p) {
        NameAlone(s);
      }
      assert Judged(p, s) == s;
      assert !(Accepts(a, p, s) <==> Glob(a, p, Judged(p, s)));
    }
  }

  // For plain globs it is: with a slash it is the path that counts, without one the name.
  lemma AcceptsIsGlob(a: Alphabet, p: Str, rel: Path)
    requires Lawful(a) && IsGlob(p) && Plain(p)
    ensures Accepts(a, p, rel) <==> Usable(p) && Glob(a, p, Judged(p, rel))
  {
    RefusedIff(p);
    if Usable(p) {
      ExpressionIsGlob(a, p, Judged(p, rel));
    }
  }

  lemma AccentIs(p: Str)
    requires |p| >= 2 && p[0] == 0xC3 && p[1] == 0xA9
    ensures Decode(p) == Char(0xE9, p[..2])
  {
    var raw := p[..2];
    assert CodePoint(raw, 2, 1) == 3;
    assert CodePoint(raw, 2, 2) == 3 * 0x40 + 0x29;
  }

  // Letters stand for themselves.
  lemma {:induction false} PlainShortest(a: Alphabet, p: Str, inName: bool)
    requires forall i :: 0 <= i < |p| ==> p[i] < 0x80 && p[i] != STAR && p[i] != MARK && p[i] != OPEN
    ensures Usable(p) && Fits(a, p, inName)
    ensures Shortest(a, p, inName) == p
  {
    if p != [] {
      LetterBytes(p);
      PlainShortest(a, p[1..], inName);
      assert p == [p[0]] + p[1..];
    }
  }

  // e-acute, a star and plain letters do not find e-acute and those letters.
  lemma AccentMisses(a: Alphabet, p: Str, name: Str)
    requires Lawful(a)
    requires |p| >= 3 && p[0] == 0xC3 && p[1] == 0xA9 && p[2] == STAR && p[3..] == name
    requires name != [] && forall i :: 0 <= i < |name| ==> name[i] < 0x80 && name[i] !in {STAR, MARK, OPEN, SLASH}
    ensures Usable(p) && Glob(a, p, [0xE9] + name) && !Accepts(a, p, [0xE9] + name)
  {
    var s: Path := [0xE9] + name;
    AccentShortest(a, p, name);
    RefusedIff(p);
    assert p[2] in p && !Plain(p);
    NameAlone(s);
    ShortestLost(a, p, true);
  }

  // The shortest text of a pattern that is not plain is lost, any such pattern's.
  lemma ShortestLost(a: Alphabet, p: Str, inName: bool)
    requires Lawful(a) && Translated(p).Some? && Usable(p) && Fits(a, p, inName) && !Plain(p)
    ensures Glob(a, p, Shortest(a, p, inName)) && !Matches(a, ReOf(Translated(p).value), Shortest(a, p, inName))
  {
    ShortestIsGlob(a, p, inName);
    if Matches(a, ReOf(Translated(p).value), Shortest(a, p, inName)) {
      ShortestMatches(a, p, inName);
    }
  }

  lemma AccentShortest(a: Alphabet, p: Str, name: Str)
    requires |p| >= 3 && p[0] == 0xC3 && p[1] == 0xA9 && p[2] == STAR && p[3..] == name
    requires name != [] && forall i :: 0 <= i < |name| ==> name[i] < 0x80 && name[i] !in {STAR, MARK, OPEN, SLASH}
    ensures Usable(p) && Fits(a, p, true) && Shortest(a, p, true) == [0xE9] + name && SLASH !in p
  {
    AccentIs(p);
    PlainShortest(a, name, true);
    assert p[2..][1..] == name && p[2..][0] == STAR && !TwoStars(p[2..]);
    SkipsAhead(a, p, 3, true);
    SkipsAhead(a, p, 2, true);
    assert forall i :: 3 <= i < |p| ==> p[i] == name[i - 3];
  }

  // The exception, concretely: the glob e-acute, star, ".go" and the file e-acute ".go".
  lemma AccentIsLost(a: Alphabet)
    requires Lawful(a)
    ensures Glob(a, [0xC3, 0xA9, STAR, 0x2E, 0x67, 0x6F], [0xE9, 0x2E, 0x67, 0x6F])
    ensures !Accepts(a, [0xC3, 0xA9, STAR, 0x2E, 0x67, 0x6F], [0xE9, 0x2E, 0x67, 0x6F])
  {
    var p: Str, name: Str := [0xC3, 0xA9, STAR, 0x2E, 0x67, 0x6F], [0x2E, 0x67, 0x6F];
    var s: Path := [0xE9, 0x2E, 0x67, 0x6F];
    assert p[3..] == name && [0xE9] + name == s;
    AccentMisses(a, p, name);
  }

  lemma {:induction false} NameAfter(dir: Path, name: Path)
    requires NoSlash(name)
    ensures NameOf(dir + [SLASH] + name) == name
    decreases |name|
  {
    var rel := dir + [SLASH] + name;
    if name != [] {
      var init := name[..|name| - 1];
      NameAfter(dir, init);
      assert rel[..|rel| - 1] == dir + [SLASH] + init;
      assert init + [name[|name| - 1]] == name;
    }
  }

  lemma {:induction false} NameAlone(name: Path)
    requires NoSlash(name)
    ensures NameOf(name) == name
  {
    if name != [] {
      NameAlone(name[..|name| - 1]);
      assert name[..|name| - 1] + [name[|name| - 1]] == name;
    }
  }

  // A pattern without a slash is judged on the name only, wherever the file is.
  lemma FoldersDoNotMatter(a: Alphabet, p: Str, dir: Path, name: Path)
    requires SLASH !in p && NoSlash(name)
    ensures Accepts(a, p, dir + [SLASH] + name) <==> Accepts(a, p, name)
  {
    NameAfter(dir, name);
    NameAlone(name);
  }
}
