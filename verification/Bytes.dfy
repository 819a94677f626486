// Byte strings, as Go's `string` and `[]byte` hold them, and suffixes of them.
module Bytes {
  type Byte = b: int | 0 <= b < 256

  type Str = seq<Byte>

  // `w` ends `t`.
  predicate Suffix(w: Str, t: Str) {
    |w| <= |t| && t[|t| - |w|..] == w
  }

  // The bytes of an ASCII literal.
  function Ascii(s: string): (r: Str)
    requires forall i :: 0 <= i < |s| ==> s[i] < 128 as char
    ensures |r| == |s|
    ensures forall i :: 0 <= i < |s| ==> r[i] == s[i] as int
  {
    seq(|s|, i requires 0 <= i < |s| => s[i] as int)
  }

  lemma SuffixOfShorter(u: Str, w: Str, t: Str)
    requires Suffix(u, t) && Suffix(w, t) && |u| <= |w|
    ensures Suffix(u, w)
  {
    assert w[|w| - |u|..] == t[|t| - |u|..];
  }

  lemma SuffixTransitive(u: Str, w: Str, t: Str)
    requires Suffix(u, w) && Suffix(w, t)
    ensures Suffix(u, t)
  {
    assert t[|t| - |u|..] == w[|w| - |u|..];
  }

  lemma SuffixSnoc(w: Str, t: Str, b: Byte)
    ensures Suffix(w + [b], t + [b]) <==> Suffix(w, t)
  {
    if |w| <= |t| {
      var k := |t| - |w|;
      assert (t + [b])[k..] == t[k..] + [b];
      if Suffix(w + [b], t + [b]) {
        assert t[k..] == (t[k..] + [b])[..|w|] == (w + [b])[..|w|] == w;
      }
    }
  }

  lemma TakeSnoc<T>(s: seq<T>, i: nat)
    requires i < |s|
    ensures s[..i + 1] == s[..i] + [s[i]]
  {
  }

  // How often `x` stands in `s`.
  ghost function Count<T>(x: T, s: seq<T>): nat {
    multiset(s)[x]
  }

  lemma CountSnoc<T>(s: seq<T>, init: seq<T>, last: T, x: T)
    requires s == init + [last]
    ensures Count(x, s) == Count(x, init) + if last == x then 1 else 0
  {
  }

  lemma CountAppend<T>(s: seq<T>, t: seq<T>, x: T)
    ensures Count(x, s + t) == Count(x, s) + Count(x, t)
  {
  }

  lemma SliceOfSlice<T>(s: seq<T>, from: nat, to: nat, a: nat, b: nat)
    requires from <= to <= |s| && a <= b <= to - from
    ensures s[from..to][a..b] == s[from + a..from + b]
  {
    assert forall k :: 0 <= k < b - a ==> s[from..to][a..b][k] == s[from..to][a + k] == s[from + a + k];
  }

  lemma AppendTake<T>(a: seq<T>, s: seq<T>, i: nat)
    requires i < |s|
    ensures a + s[..i] + [s[i]] == a + s[..i + 1]
  {
  }

  lemma Reassociate<T>(a: seq<T>, b: seq<T>, c: seq<T>)
    ensures a + b + c == a + (b + c)
  {
  }
}
