/**
 Reading UTF-8 one character at a time the way Go's unicode/utf8 does (the byte ranges are
 those of RFC 3629, section 4): bytes that begin no character are characters of one byte
 each, and a string may stop in the middle of a character.
 */
module Utf8 {
  import opened Bytes

  const RUNE_ERROR := 0xFFFD

  // A character as read: its code point and its bytes exactly as they arrived.
  datatype Char = Char(r: int, raw: Str)

  // How many bytes the character that begins with `b` has; 1 also for a byte that begins none.
  function Size(b: Byte): (n: nat)
    ensures 1 <= n <= 4
  {
    if 0xC2 <= b <= 0xDF then 2
    else if 0xE0 <= b <= 0xEF then 3
    else if 0xF0 <= b <= 0xF4 then 4
    else 1
  }

  // What may follow the first byte.
  predicate Second(b: Byte, s: Byte) {
    (if b == 0xE0 then 0xA0 else if b == 0xF0 then 0x90 else 0x80) <= s
      <= (if b == 0xED then 0x9F else if b == 0xF4 then 0x8F else 0xBF)
  }

  predicate Continues(s: Byte) {
    0x80 <= s <= 0xBF
  }

  // utf8.FullRuneInString: the first character is all there, or already known to be broken.
  predicate FullRune(p: Str) {
    && p != []
    && (|| |p| >= Size(p[0])
        || (|p| > 1 && !Second(p[0], p[1]))
        || (|p| > 2 && !Continues(p[2])))
  }

  // `p` begins with a whole, well-formed character of more than one byte.
  predicate WellFormed(p: Str) {
    && p != []
    && Size(p[0]) > 1
    && |p| >= Size(p[0])
    && Second(p[0], p[1])
    && (Size(p[0]) > 2 ==> Continues(p[2]))
    && (Size(p[0]) > 3 ==> Continues(p[3]))
  }

  // The bits of the first byte of a character of `size` bytes.
  function LeadBits(b: Byte, size: nat): int {
    if size == 2 then b - 0xC0 else if size == 3 then b - 0xE0 else b - 0xF0
  }

  // The code point of the first `n` bytes of a well-formed character of `size` bytes.
  function CodePoint(p: Str, size: nat, n: nat): int
    requires 1 <= n <= |p|
  {
    if n == 1 then LeadBits(p[0], size) else CodePoint(p, size, n - 1) * 0x40 + (p[n - 1] as int - 0x80)
  }

  // utf8.DecodeRuneInString, for a string that is not empty.
  function Decode(p: Str): (c: Char)
    requires p != []
    ensures 1 <= |c.raw| <= |p| && c.raw == p[..|c.raw|]
  {
    if WellFormed(p) then
      var raw := p[..Size(p[0])];
      Char(CodePoint(raw, |raw|, |raw|), raw)
    else
      Char(if p[0] < 0x80 then p[0] else RUNE_ERROR, p[..1])
  }

  // A Unicode scalar value: not one half of a UTF-16 pair.
  predicate Scalar(r: int) {
    0 <= r < 0xD800 || 0xE000 <= r < 0x110000
  }

  // What is read is a scalar value; beyond ASCII it is beyond ASCII.
  lemma DecodedIsScalar(p: Str)
    requires p != []
    ensures Scalar(Decode(p).r)
    ensures p[0] >= 0x80 ==> Decode(p).r >= 0x80
  {
    if WellFormed(p) {
      var n := Size(p[0]);
      var raw := p[..n];
      assert CodePoint(raw, n, 2) == LeadBits(p[0], n) * 0x40 + (p[1] - 0x80);
      if n > 2 {
        assert CodePoint(raw, n, 3) == CodePoint(raw, n, 2) * 0x40 + (p[2] - 0x80);
      }
    }
  }

  // All the characters of a string.
  function Chars(p: Str): (cs: seq<Char>)
    decreases |p|
  {
    if p == [] then [] else
      var c := Decode(p);
      [c] + Chars(p[|c.raw|..])
  }

  function Raw(cs: seq<Char>): Str {
    if cs == [] then [] else cs[0].raw + Raw(cs[1..])
  }

  // ---------------------------------------------------------------- reading across a cut

  // More text changes nothing about a character that is all there.
  lemma FullIsFinal(p: Str, q: Str)
    requires FullRune(p)
    ensures Decode(p + q) == Decode(p)
  {
    assert (p + q)[0] == p[0];
    if WellFormed(p) {
      var n := Size(p[0]);
      assert forall i :: 0 <= i < n ==> (p + q)[i] == p[i];
      assert (p + q)[..n] == p[..n];
    } else {
      assert !WellFormed(p + q);
      assert (p + q)[..1] == p[..1];
    }
  }

  // Less text changes nothing either, as long as the character itself is left.
  lemma TruncatedDecode(s: Str, t: Str)
    requires s != []
    requires |Decode(s + t).raw| <= |s|
    ensures Decode(s) == Decode(s + t)
  {
    assert (s + t)[0] == s[0];
    if WellFormed(s + t) {
      var n := Size(s[0]);
      assert forall i :: 0 <= i < n ==> (s + t)[i] == s[i];
      assert (s + t)[..n] == s[..n];
    } else {
      assert !WellFormed(s) by {
        if WellFormed(s) {
          assert forall i :: 0 <= i < |s| ==> (s + t)[i] == s[i];
        }
      }
      assert (s + t)[..1] == s[..1];
    }
  }

  lemma CharsOfFull(p: Str, q: Str)
    requires FullRune(p)
    ensures Chars(p + q) == [Decode(p)] + Chars(p[|Decode(p).raw|..] + q)
  {
    FullIsFinal(p, q);
    var n := |Decode(p).raw|;
    assert (p + q)[n..] == p[n..] + q;
  }

  lemma RawCons(c: Char, cs: seq<Char>)
    ensures Raw([c] + cs) == c.raw + Raw(cs)
  {
    assert ([c] + cs)[1..] == cs;
  }

  lemma {:induction false} RawOfChars(p: Str)
    ensures Raw(Chars(p)) == p
    decreases |p|
  {
    if p != [] {
      var c := Decode(p);
      var rest := p[|c.raw|..];
      RawOfChars(rest);
      RawCons(c, Chars(rest));
      assert c.raw + rest == p;
    }
  }

  lemma {:induction false} RawAppend(a: seq<Char>, b: seq<Char>)
    ensures Raw(a + b) == Raw(a) + Raw(b)
  {
    if a == [] {
      assert a + b == b;
    } else {
      RawAppend(a[1..], b);
      assert (a + b)[1..] == a[1..] + b;
      Reassociate(a[0].raw, Raw(a[1..]), Raw(b));
    }
  }

  lemma ReadBackOne(p: Str, s: Str, t: Str)
    requires p != [] && p[|Decode(p).raw|..] == s + t
    ensures Chars(Decode(p).raw + s) == [Decode(p)] + Chars(s)
  {
    var c := Decode(p);
    assert p == c.raw + (s + t) == (c.raw + s) + t;
    TruncatedDecode(c.raw + s, t);
    assert (c.raw + s)[|c.raw|..] == s;
  }

  // Reading again what was read: the first `k` characters of a text, written out and read
  // back, are the same characters, even where they were broken.
  lemma {:induction false} CharsOfPrefix(p: Str, k: nat)
    requires k <= |Chars(p)|
    ensures Chars(Raw(Chars(p)[..k])) == Chars(p)[..k]
    decreases k
  {
    if k > 0 {
      var c := Decode(p);
      var rest := p[|c.raw|..];
      CharsOfPrefix(rest, k - 1);
      PrefixOfRest(p, k);
      RawOfChars(rest);
      RawSplits(Chars(rest), k - 1);
      ReadBackOne(p, Raw(Chars(rest)[..k - 1]), Raw(Chars(rest)[k - 1..]));
    }
  }

  lemma PrefixOfRest(p: Str, k: nat)
    requires 0 < k <= |Chars(p)|
    ensures var a := Chars(p[|Decode(p).raw|..])[..k - 1];
            Chars(p)[..k] == [Decode(p)] + a && Raw(Chars(p)[..k]) == Decode(p).raw + Raw(a)
  {
    var a := Chars(p[|Decode(p).raw|..])[..k - 1];
    assert Chars(p)[..k] == [Decode(p)] + a;
    assert ([Decode(p)] + a)[1..] == a;
  }

  lemma RawSplits(cs: seq<Char>, k: nat)
    requires k <= |cs|
    ensures Raw(cs) == Raw(cs[..k]) + Raw(cs[k..])
  {
    assert cs == cs[..k] + cs[k..];
    RawAppend(cs[..k], cs[k..]);
  }

  // A code point below 0x80 is one byte, itself.
  lemma AsciiIsOneByte(p: Str)
    requires p != []
    ensures Decode(p).r < 0x80 ==> Decode(p).raw == [Decode(p).r]
  {
    if WellFormed(p) {
      var raw := p[..Size(p[0])];
      LeadBitsCount(raw);
      CodePointGrows(raw, |raw|, |raw|);
    } else {
      assert p[..1] == [p[0]];
    }
  }

  // Past the first continuation byte a well-formed character is out of the ASCII range.
  lemma LeadBitsCount(p: Str)
    requires WellFormed(p) && |p| == Size(p[0])
    ensures CodePoint(p, Size(p[0]), 2) >= (if Size(p[0]) == 2 then 0x80 else if Size(p[0]) == 3 then 0x20 else 0x10)
  {
    assert CodePoint(p, Size(p[0]), 1) == LeadBits(p[0], Size(p[0]));
  }

  lemma CodePointGrows(p: Str, size: nat, n: nat)
    requires 2 <= n <= |p| && forall i :: 2 <= i < n ==> Continues(p[i])
    requires CodePoint(p, size, 2) >= 2
    ensures n > 2 ==> CodePoint(p, size, n) >= 0x80
    ensures CodePoint(p, size, n) >= CodePoint(p, size, 2)
  {
    if n > 2 {
      CodePointGrows(p, size, n - 1);
    }
  }
}
