/**
 The literal credential scrubber of daemon/credscrub.go: the set of patterns it registers
 for the credential values it is given, the scan for any of them, and the redaction that
 replaces every covered stretch of a text by one placeholder.
 */
module CredScrub {
  import opened Bytes
  import opened AhoCorasick
  import opened Numbers

  const CRED_MIN_LEN := 16
  const CRED_FRAGMENT_WINDOW := 16

  const OPEN: Byte := 0x5B   // '['
  const CLOSE: Byte := 0x5D  // ']'

  // "[REDACTED:mochiii-credential]"
  const PLACEHOLDER: Str := [OPEN] + INNER + [CLOSE]
  const INNER: Str := Ascii("REDACTED:mochiii-credential")

  // ---------------------------------------------------------------- which bytes are covered

  // A pattern stands at `m`.
  ghost predicate Hit(m: Match, text: Str, patterns: seq<Str>) {
    0 <= m.start < m.end <= |text| && text[m.start..m.end] in patterns
  }

  ghost predicate CoveredAt(text: Str, patterns: seq<Str>, i: int) {
    exists m :: Hit(m, text, patterns) && m.start <= i < m.end
  }

  // The positions that stand inside some occurrence of some pattern.
  ghost function Cover(text: Str, patterns: seq<Str>): (cover: set<int>)
    ensures forall i :: i in cover <==> CoveredAt(text, patterns, i)
    ensures forall i :: i in cover ==> 0 <= i < |text|
  {
    set i | 0 <= i < |text| && CoveredAt(text, patterns, i)
  }

  // ---------------------------------------------------------------- the batch rewrite

  // A covered position that the position before it does not continue.
  ghost predicate RunStart(cover: set<int>, i: int) {
    i in cover && i - 1 !in cover
  }

  // What the byte at `i` leaves behind: a covered byte disappears, the first of a covered
  // stretch leaves the placeholder, every other byte is kept.
  ghost function Left(text: Str, cover: set<int>, mark: Str, i: nat): Str
    requires i < |text|
  {
    if RunStart(cover, i) then mark else if i in cover then [] else [text[i]]
  }

  // `text` from `i` on, read one byte at a time.
  ghost function Redacted(text: Str, cover: set<int>, mark: Str, i: nat): Str
    requires i <= |text|
    decreases |text| - i
  {
    if i == |text| then [] else Left(text, cover, mark, i) + Redacted(text, cover, mark, i + 1)
  }

  // How many covered stretches begin at `i` or later.
  ghost function Runs(text: Str, cover: set<int>, i: nat): nat
    requires i <= |text|
    decreases |text| - i
  {
    if i == |text| then 0
    else (if RunStart(cover, i) then 1 else 0) + Runs(text, cover, i + 1)
  }

  lemma {:induction false} SkipsUncovered(text: Str, cover: set<int>, mark: Str, i: nat, j: nat)
    requires i <= j <= |text|
    requires forall k :: i <= k < j ==> k !in cover
    ensures Redacted(text, cover, mark, i) == text[i..j] + Redacted(text, cover, mark, j)
    ensures Runs(text, cover, i) == Runs(text, cover, j)
    decreases j - i
  {
    if i < j {
      SkipsUncovered(text, cover, mark, i + 1, j);
      assert text[i..j] == [text[i]] + text[i + 1..j];
      var rest := Redacted(text, cover, mark, j);
      assert [text[i]] + (text[i + 1..j] + rest) == [text[i]] + text[i + 1..j] + rest;
    }
  }

  lemma {:induction false} SkipsCovered(text: Str, cover: set<int>, mark: Str, i: nat, j: nat)
    requires 0 < i <= j <= |text|
    requires forall k :: i - 1 <= k < j ==> k in cover
    ensures Redacted(text, cover, mark, i) == Redacted(text, cover, mark, j)
    ensures Runs(text, cover, i) == Runs(text, cover, j)
    decreases j - i
  {
    if i < j {
      SkipsCovered(text, cover, mark, i + 1, j);
    }
  }

  // One maximal covered stretch becomes one placeholder.
  lemma RedactsRun(text: Str, cover: set<int>, mark: Str, i: nat, j: nat)
    requires i < j <= |text|
    requires i - 1 !in cover && forall k :: i <= k < j ==> k in cover
    ensures Redacted(text, cover, mark, i) == mark + Redacted(text, cover, mark, j)
    ensures Runs(text, cover, i) == 1 + Runs(text, cover, j)
  {
    SkipsCovered(text, cover, mark, i + 1, j);
  }

  // ---------------------------------------------------------------- sorting and merging

  // The order redact sorts by: start, and at one start the longest first.
  predicate Before(a: Match, b: Match) {
    a.start < b.start || (a.start == b.start && a.end >= b.end)
  }

  ghost predicate Sorted(ms: seq<Match>) {
    forall i, j :: 0 <= i < j < |ms| ==> Before(ms[i], ms[j])
  }

  function Inserted(m: Match, ms: seq<Match>): (r: seq<Match>)
    ensures multiset(r) == multiset(ms) + multiset{m}
  {
    if ms == [] || Before(m, ms[0]) then
      [m] + ms
    else
      assert ms == [ms[0]] + ms[1..];
      [ms[0]] + Inserted(m, ms[1..])
  }

  lemma {:induction false} InsertedSorted(m: Match, ms: seq<Match>)
    requires Sorted(ms)
    ensures Sorted(Inserted(m, ms))
  {
    if ms != [] && !Before(m, ms[0]) {
      InsertedSorted(m, ms[1..]);
      var rest := Inserted(m, ms[1..]);
      forall k | 0 <= k < |rest|
        ensures Before(ms[0], rest[k])
      {
        assert rest[k] in multiset(rest);
        assert rest[k] == m || rest[k] in ms[1..];
      }
    }
  }

  // sort.Slice: the order is total on (start, end), so the result does not depend on how.
  function SortMatches(ms: seq<Match>): (r: seq<Match>)
    ensures multiset(r) == multiset(ms)
    ensures Sorted(r)
  {
    if ms == [] then []
    else
      assert ms == [ms[0]] + ms[1..];
      InsertedSorted(ms[0], SortMatches(ms[1..]));
      Inserted(ms[0], SortMatches(ms[1..]))
  }

  ghost predicate InSome(ms: seq<Match>, i: int) {
    exists k :: 0 <= k < |ms| && ms[k].start <= i < ms[k].end
  }

  // Disjoint stretches in order, with something between any two.
  ghost predicate Apart(spans: seq<Match>, n: nat) {
    && (forall k :: 0 <= k < |spans| ==> 0 <= spans[k].start < spans[k].end <= n)
    && (forall j, k :: 0 <= j < k < |spans| ==> spans[j].end < spans[k].start)
  }

  // One match taken in: into the last span if it begins there, or as a span of its own.
  ghost predicate TakenIn(before: seq<Match>, m: Match, after: seq<Match>) {
    if before != [] && before[|before| - 1].start <= m.start <= before[|before| - 1].end
    then after == (if m.end > before[|before| - 1].end
                   then before[|before| - 1 := before[|before| - 1].(end := m.end)] else before)
    else after == before + [m]
  }

  method TakeIn(spans: seq<Match>, m: Match, n: nat) returns (after: seq<Match>)
    requires Apart(spans, n) && 0 <= m.start < m.end <= n
    requires spans != [] ==> spans[|spans| - 1].start <= m.start
    ensures Apart(after, n) && TakenIn(spans, m, after)
    ensures after != [] && after[|after| - 1].start <= m.start
  {
    after := spans;
    if |spans| > 0 && m.start <= spans[|spans| - 1].end {
      if m.end > spans[|spans| - 1].end {
        after := spans[|spans| - 1 := spans[|spans| - 1].(end := m.end)];
      }
    } else {
      after := spans + [m];
    }
  }

  // The first k matches, merged.
  ghost predicate MergedTo(spans: seq<Match>, matches: seq<Match>, k: nat, n: nat) {
    && k <= |matches| && Apart(spans, n)
    && (forall i :: InSome(spans, i) <==> InSome(matches[..k], i))
    && (spans == [] <==> k == 0)
    && (spans != [] && k < |matches| ==> spans[|spans| - 1].start <= matches[k].start)
  }

  method MergeNext(spans: seq<Match>, matches: seq<Match>, k: nat, n: nat) returns (after: seq<Match>)
    requires k < |matches| && MergedTo(spans, matches, k, n) && Sorted(matches)
    requires 0 <= matches[k].start < matches[k].end <= n
    ensures MergedTo(after, matches, k + 1, n)
  {
    after := TakeIn(spans, matches[k], n);
    MergeStep(spans, matches, k, after);
    assert k + 1 < |matches| ==> Before(matches[k], matches[k + 1]);
  }

  // The merge loop of redact.
  method MergeSpans(matches: seq<Match>, n: nat) returns (spans: seq<Match>)
    requires Sorted(matches)
    requires forall m :: m in matches ==> 0 <= m.start < m.end <= n
    ensures Apart(spans, n)
    ensures forall i :: InSome(spans, i) <==> InSome(matches, i)
    ensures spans == [] <==> matches == []
  {
    spans := [];
    for k := 0 to |matches|
      invariant MergedTo(spans, matches, k, n)
    {
      assert matches[k] in matches;
      spans := MergeNext(spans, matches, k, n);
    }
    assert matches[..|matches|] == matches;
  }

  // Taking in one match adds exactly its positions.
  lemma MergeStep(before: seq<Match>, matches: seq<Match>, k: nat, after: seq<Match>)
    requires k < |matches|
    requires forall i :: InSome(before, i) <==> InSome(matches[..k], i)
    requires TakenIn(before, matches[k], after)
    ensures forall i :: InSome(after, i) <==> InSome(matches[..k + 1], i)
  {
    var m := matches[k];
    forall i
      ensures InSome(matches[..k + 1], i) <==> InSome(matches[..k], i) || m.start <= i < m.end
    {
      SnocInSome(matches, k, i);
    }
    forall i
      ensures InSome(after, i) <==> InSome(before, i) || m.start <= i < m.end
    {
      GrownInSome(before, m, after, i);
    }
  }

  lemma SnocInSome(matches: seq<Match>, k: nat, i: int)
    requires k < |matches|
    ensures InSome(matches[..k + 1], i) <==> InSome(matches[..k], i) || matches[k].start <= i < matches[k].end
  {
    if InSome(matches[..k], i) {
      var j :| 0 <= j < k && matches[..k][j].start <= i < matches[..k][j].end;
      assert matches[..k + 1][j] == matches[j];
    }
    if matches[k].start <= i < matches[k].end {
      assert matches[..k + 1][k] == matches[k];
    }
    if InSome(matches[..k + 1], i) {
      var j :| 0 <= j < k + 1 && matches[..k + 1][j].start <= i < matches[..k + 1][j].end;
      if j < k {
        assert matches[..k][j] == matches[j];
      }
    }
  }

  lemma GrownInSome(before: seq<Match>, m: Match, after: seq<Match>, i: int)
    requires TakenIn(before, m, after)
    ensures InSome(after, i) <==> InSome(before, i) || m.start <= i < m.end
  {
    var last := |before| - 1;
    if InSome(before, i) {
      var j :| 0 <= j < |before| && before[j].start <= i < before[j].end;
      assert after[j].start <= i < after[j].end;
    }
    if m.start <= i < m.end {
      assert if |after| > |before| then after[|before|].start <= i < after[|before|].end
             else i < after[last].start || after[last].start <= i < after[last].end;
    }
    if InSome(after, i) {
      var j :| 0 <= j < |after| && after[j].start <= i < after[j].end;
      if j < |before| && i < before[j].end {
        assert before[j].start <= i < before[j].end;
      }
    }
  }

  // ---------------------------------------------------------------- replacing the spans

  // Spans of a cover are its maximal runs: nothing is covered between two of them.
  lemma SpanIsRun(spans: seq<Match>, n: nat, cover: set<int>, k: nat)
    requires Apart(spans, n)
    requires forall i :: i in cover <==> InSome(spans, i)
    requires k < |spans|
    ensures forall i :: spans[k].start <= i < spans[k].end ==> i in cover
    ensures spans[k].end !in cover
    ensures forall i :: (if k == 0 then 0 else spans[k - 1].end) <= i < spans[k].start ==> i !in cover
    ensures spans[k].start - 1 !in cover
  {
    forall i | spans[k].start <= i < spans[k].end
      ensures i in cover
    {
      assert InSome(spans, i);
    }
    forall i | i == spans[k].end || (if k == 0 then -1 else spans[k - 1].end) <= i < spans[k].start
      ensures !InSome(spans, i)
    {
    }
  }

  // The writing loop of redact.
  method ReplaceSpans(text: Str, spans: seq<Match>, ghost cover: set<int>) returns (out: Str)
    requires Apart(spans, |text|)
    requires forall i :: i in cover <==> InSome(spans, i)
    ensures out == Redacted(text, cover, PLACEHOLDER, 0)
    ensures |spans| == Runs(text, cover, 0)
  {
    out := [];
    var prev: nat := 0;
    for k := 0 to |spans|
      invariant prev == if k == 0 then 0 else spans[k - 1].end
      invariant prev <= |text|
      invariant Redacted(text, cover, PLACEHOLDER, 0) == out + Redacted(text, cover, PLACEHOLDER, prev)
      invariant Runs(text, cover, 0) == k + Runs(text, cover, prev)
    {
      var s := spans[k];
      SpanIsRun(spans, |text|, cover, k);
      ghost var mark := PLACEHOLDER;
      ghost var rest := Redacted(text, cover, mark, s.end);
      SkipsUncovered(text, cover, mark, prev, s.start);
      RedactsRun(text, cover, mark, s.start, s.end);
      Regroup(out, text[prev..s.start], mark, rest);
      out := out + text[prev..s.start];
      out := out + PLACEHOLDER;
      prev := s.end;
    }
    TailUncovered(text, spans, cover, prev);
    out := out + text[prev..];
  }

  lemma Regroup(a: Str, b: Str, c: Str, d: Str)
    ensures a + (b + (c + d)) == a + b + c + d
  {
  }

  lemma TailUncovered(text: Str, spans: seq<Match>, cover: set<int>, prev: nat)
    requires Apart(spans, |text|)
    requires forall i :: i in cover <==> InSome(spans, i)
    requires prev == if spans == [] then 0 else spans[|spans| - 1].end
    ensures prev <= |text|
    ensures Redacted(text, cover, PLACEHOLDER, prev) == text[prev..]
    ensures Runs(text, cover, prev) == 0
  {
    forall i | prev <= i < |text|
      ensures i !in cover
    {
      assert !InSome(spans, i);
    }
    SkipsUncovered(text, cover, PLACEHOLDER, prev, |text|);
    assert text[prev..|text|] == text[prev..];
  }

  // ---------------------------------------------------------------- what the rewrite guarantees

  // A covered stretch lies inside one maximal run, which becomes one placeholder.
  lemma {:induction false} RunAround(text: Str, cover: set<int>, s: nat, e: nat) returns (a: nat, b: nat)
    requires s < e <= |text|
    requires forall i :: i in cover ==> 0 <= i < |text|
    requires forall i :: s <= i < e ==> i in cover
    ensures a <= s && e <= b <= |text|
    ensures a - 1 !in cover && b !in cover
    ensures forall i :: a <= i < b ==> i in cover
    ensures forall mark :: Redacted(text, cover, mark, a) == mark + Redacted(text, cover, mark, b)
  {
    a, b := s, e;
    while a - 1 in cover
      invariant a <= s && forall i :: a <= i < b ==> i in cover
      decreases a
    {
      a := a - 1;
    }
    while b in cover
      invariant e <= b <= |text| && forall i :: a <= i < b ==> i in cover
      decreases |text| - b
    {
      b := b + 1;
    }
    forall mark
      ensures Redacted(text, cover, mark, a) == mark + Redacted(text, cover, mark, b)
    {
      RedactsRun(text, cover, mark, a, b);
    }
  }

  // The bytes outside the cover, in order.
  ghost function Survivors(text: Str, cover: set<int>, i: nat): Str
    requires i <= |text|
    decreases |text| - i
  {
    if i == |text| then []
    else (if i in cover then [] else [text[i]]) + Survivors(text, cover, i + 1)
  }

  // Nothing but the covered bytes is lost: with an empty placeholder the survivors are all
  // there is ...
  lemma {:induction false} RedactedKeepsTheRest(text: Str, cover: set<int>, i: nat)
    requires i <= |text|
    ensures Redacted(text, cover, [], i) == Survivors(text, cover, i)
    decreases |text| - i
  {
    if i < |text| {
      RedactedKeepsTheRest(text, cover, i + 1);
    }
  }

  // ... and nothing but placeholders is added, one for each run.
  lemma {:induction false} RedactedLength(text: Str, cover: set<int>, mark: Str, i: nat)
    requires i <= |text|
    ensures |Redacted(text, cover, mark, i)| == |Survivors(text, cover, i)| + Times(Runs(text, cover, i), |mark|)
    decreases |text| - i
  {
    if i < |text| {
      RedactedLength(text, cover, mark, i + 1);
      RedactedStep(text, cover, mark, i);
    }
  }

  lemma RedactedStep(text: Str, cover: set<int>, mark: Str, i: nat)
    requires i < |text|
    ensures |Redacted(text, cover, mark, i)| ==
            |Redacted(text, cover, mark, i + 1)| + if i !in cover then 1 else if RunStart(cover, i) then |mark| else 0
    ensures |Survivors(text, cover, i)| == |Survivors(text, cover, i + 1)| + if i !in cover then 1 else 0
  {
  }

  // `p` stands somewhere in `t`.
  ghost predicate Occurs(p: Str, t: Str) {
    exists i :: OccursAt(p, t, i)
  }

  ghost predicate OccursAt(p: Str, t: Str, i: int) {
    0 <= i <= i + |p| <= |t| && t[i..i + |p|] == p
  }

  ghost predicate NoBrackets(p: Str) {
    OPEN !in p && CLOSE !in p
  }

  // From an uncovered byte or the start of a run, a bracketless string that begins the
  // output is copied from the text.
  lemma {:induction false} PrefixIsCopied(text: Str, cover: set<int>, mark: Str, i: nat, w: Str)
    requires i <= |text|
    requires mark != [] && mark[0] == OPEN
    requires i in cover ==> i - 1 !in cover
    requires w <= Redacted(text, cover, mark, i) && NoBrackets(w)
    ensures i + |w| <= |text| && w == text[i..i + |w|]
    ensures forall k :: i <= k < i + |w| ==> k !in cover
    decreases |text| - i
  {
    if w != [] {
      assert w[0] == Redacted(text, cover, mark, i)[0];
      assert i < |text| && i !in cover;
      var w' := w[1..];
      assert w' <= Redacted(text, cover, mark, i + 1);
      PrefixIsCopied(text, cover, mark, i + 1, w');
      assert w == [text[i]] + text[i + 1..i + 1 + |w'|];
    }
  }

  lemma PieceShifts(head: Str, rest: Str, at: nat, w: Str)
    requires at >= |head|
    requires OccursAt(w, head + rest, at)
    ensures OccursAt(w, rest, at - |head|)
  {
    assert rest[at - |head|..at - |head| + |w|] == (head + rest)[at..at + |w|];
  }

  // Anywhere in the output, a bracketless string is inside a placeholder or copied from
  // uncovered text.
  lemma {:induction false} PieceIsCopied(text: Str, cover: set<int>, inner: Str, mark: Str, i: nat, at: nat, w: Str)
      returns (j: nat)
    requires i <= |text|
    requires w != [] && NoBrackets(w)
    requires mark == [OPEN] + inner + [CLOSE]
    requires OccursAt(w, Redacted(text, cover, mark, i), at)
    requires !Occurs(w, inner)
    ensures j + |w| <= |text| && text[j..j + |w|] == w
    ensures forall k :: j <= k < j + |w| ==> k !in cover
    decreases |text| - i
  {
    var head := Left(text, cover, mark, i);
    if at >= |head| {
      PieceShifts(head, Redacted(text, cover, mark, i + 1), at, w);
      j := PieceIsCopied(text, cover, inner, mark, i + 1, at - |head|, w);
    } else if RunStart(cover, i) {
      NotInMark(inner, Redacted(text, cover, mark, i + 1), at, w);
      assert false;
    } else {
      PrefixIsCopied(text, cover, mark, i, w);
      j := i;
    }
  }

  lemma NotInMark(inner: Str, rest: Str, at: nat, w: Str)
    requires w != [] && NoBrackets(w)
    requires at < |inner| + 2
    requires OccursAt(w, [OPEN] + inner + [CLOSE] + rest, at)
    ensures Occurs(w, inner)
  {
    var mark := [OPEN] + inner + [CLOSE];
    var out := mark + rest;
    forall k | at <= k < at + |w|
      ensures out[k] != OPEN && out[k] != CLOSE
    {
      assert out[k] == w[k - at] && w[k - at] in w;
    }
    assert out[0] == OPEN && out[|inner| + 1] == CLOSE;
    assert inner[at - 1..at - 1 + |w|] == out[at..at + |w|];
    assert OccursAt(w, inner, at - 1);
  }

  // No pattern uses a bracket.
  ghost predicate Bracketless(patterns: seq<Str>) {
    forall p :: p in patterns ==> p != [] && NoBrackets(p)
  }

  // No pattern stands inside the placeholder.
  ghost predicate SpareThePlaceholder(patterns: seq<Str>) {
    forall p :: p in patterns ==> !Occurs(p, INNER)
  }

  // What redact returns, as a function.
  ghost function RedactText(text: Str, patterns: seq<Str>): Str {
    Redacted(text, Cover(text, patterns), PLACEHOLDER, 0)
  }

  // After one redaction no pattern is left anywhere in the text.
  lemma RedactedIsClean(text: Str, patterns: seq<Str>)
    requires Bracketless(patterns) && SpareThePlaceholder(patterns)
    ensures Cover(RedactText(text, patterns), patterns) == {}
  {
    var out := RedactText(text, patterns);
    forall m: Match | Hit(m, out, patterns)
      ensures false
    {
      var p := out[m.start..m.end];
      assert OccursAt(p, out, m.start);
      assert !Occurs(p, INNER);
      var j := PieceIsCopied(text, Cover(text, patterns), INNER, PLACEHOLDER, 0, m.start, p);
      assert Hit(Match(j, j + |p|), text, patterns);
      assert CoveredAt(text, patterns, j);
    }
  }

  lemma NothingCovered(text: Str, patterns: seq<Str>)
    requires Cover(text, patterns) == {}
    ensures RedactText(text, patterns) == text
    ensures Runs(text, Cover(text, patterns), 0) == 0
  {
    SkipsUncovered(text, {}, PLACEHOLDER, 0, |text|);
    assert text[0..|text|] == text;
  }

  // Redacting twice is redacting once, on every text, exactly if no pattern stands inside
  // the placeholder itself.
  lemma IdempotentIff(patterns: seq<Str>)
    requires Bracketless(patterns)
    ensures SpareThePlaceholder(patterns) <==>
            forall text :: RedactText(RedactText(text, patterns), patterns) == RedactText(text, patterns)
  {
    if SpareThePlaceholder(patterns) {
      forall text
        ensures RedactText(RedactText(text, patterns), patterns) == RedactText(text, patterns)
      {
        RedactedIsClean(text, patterns);
        NothingCovered(RedactText(text, patterns), patterns);
      }
    } else {
      var p :| p in patterns && Occurs(p, INNER);
      PlaceholderGrows(patterns, p);
    }
  }

  // A pattern that stands inside the placeholder is itself a text redacted differently the
  // second time.
  lemma PlaceholderGrows(patterns: seq<Str>, p: Str)
    requires Bracketless(patterns)
    requires p in patterns && Occurs(p, INNER)
    ensures RedactText(p, patterns) == PLACEHOLDER
    ensures RedactText(PLACEHOLDER, patterns) != PLACEHOLDER
  {
    PatternRedacts(patterns, p, PLACEHOLDER);
    var at :| OccursAt(p, INNER, at);
    MarkGrows(patterns, p, at, INNER, PLACEHOLDER);
  }

  lemma PatternRedacts(patterns: seq<Str>, p: Str, mark: Str)
    requires p in patterns && p != []
    ensures Redacted(p, Cover(p, patterns), mark, 0) == mark
  {
    assert p[0..|p|] == p;
    assert Hit(Match(0, |p|), p, patterns);
    var cover := Cover(p, patterns);
    forall i | 0 <= i < |p|
      ensures i in cover
    {
      assert CoveredAt(p, patterns, i);
    }
    RedactsRun(p, cover, mark, 0, |p|);
    assert mark + [] == mark;
  }

  lemma MarkGrows(patterns: seq<Str>, p: Str, at: int, inner: Str, mark: Str)
    requires Bracketless(patterns)
    requires p in patterns && OccursAt(p, inner, at)
    requires mark == [OPEN] + inner + [CLOSE]
    ensures |Redacted(mark, Cover(mark, patterns), mark, 0)| > |mark|
  {
    OpenSurvives(patterns, inner, mark);
    MarkHit(patterns, p, at, inner, mark);
    CoveredMeansRuns(mark, Cover(mark, patterns), 0, at + 1);
    RedactedLength(mark, Cover(mark, patterns), mark, 0);
  }

  lemma OpenSurvives(patterns: seq<Str>, inner: Str, mark: Str)
    requires Bracketless(patterns)
    requires mark == [OPEN] + inner + [CLOSE]
    ensures 0 !in Cover(mark, patterns)
    ensures |Survivors(mark, Cover(mark, patterns), 0)| >= 1
  {
    forall m: Match | Hit(m, mark, patterns)
      ensures m.start != 0
    {
      assert mark[m.start..m.end][0] == mark[m.start];
      assert mark[0] == OPEN;
    }
  }

  lemma MarkHit(patterns: seq<Str>, p: Str, at: int, inner: Str, mark: Str)
    requires p in patterns && p != [] && OccursAt(p, inner, at)
    requires mark == [OPEN] + inner + [CLOSE]
    ensures at + 1 in Cover(mark, patterns)
  {
    assert mark[at + 1..at + 1 + |p|] == inner[at..at + |p|];
    assert Hit(Match(at + 1, at + 1 + |p|), mark, patterns);
    assert CoveredAt(mark, patterns, at + 1);
  }

  // A covered byte belongs to a run that begins somewhere.
  lemma {:induction false} CoveredMeansRuns(text: Str, cover: set<int>, i: nat, k: nat)
    requires i <= k < |text| && k in cover
    requires i - 1 !in cover
    ensures Runs(text, cover, i) >= 1
    decreases |text| - i
  {
    if i !in cover {
      CoveredMeansRuns(text, cover, i + 1, k);
    }
  }

  // ---------------------------------------------------------------- what is registered

  // One way a credential value can appear, and the label its match is logged under.
  datatype Form = Form(pattern: Str, kind: string)

  // The library calls credFormsFor and buildCredScrubber make, left open.
  datatype Library = Library(
    trimSpace: Str -> Str,
    stdEncode: Str -> Str, rawStdEncode: Str -> Str, urlEncode: Str -> Str, rawUrlEncode: Str -> Str,
    hexLower: Str -> Str, hexUpper: Str -> Str,
    queryEscape: Str -> Str, pathEscape: Str -> Str)

  function Reversed(s: Str): (r: Str)
    ensures |r| == |s|
    ensures forall i :: 0 <= i < |s| ==> r[i] == s[|s| - 1 - i]
  {
    seq(|s|, i requires 0 <= i < |s| => s[|s| - 1 - i])
  }

  // credFormsFor
  function FormsOf(lib: Library, raw: Str): seq<Form> {
    [ Form(raw, "raw"),
      Form(lib.stdEncode(raw), "b64"),
      Form(lib.rawStdEncode(raw), "b64"),
      Form(lib.urlEncode(raw), "b64url"),
      Form(lib.rawUrlEncode(raw), "b64url"),
      Form(lib.hexLower(raw), "hex"),
      Form(lib.hexUpper(raw), "hex"),
      Form(lib.queryEscape(raw), "urlenc"),
      Form(lib.pathEscape(raw), "urlenc"),
      Form(Reversed(raw), "reversed") ]
  }

  // Every window of the raw value, from the first `n` places one can start.
  ghost function Windows(raw: Str, n: nat): (r: seq<Form>)
    requires n == 0 || n - 1 + CRED_FRAGMENT_WINDOW <= |raw|
    ensures |r| == n
    ensures forall i :: 0 <= i < n ==> r[i] == Form(raw[i..i + CRED_FRAGMENT_WINDOW], "fragment")
  {
    seq(n, i requires 0 <= i < n => Form(raw[i..i + CRED_FRAGMENT_WINDOW], "fragment"))
  }

  // Everything one value offers, in the order it is offered.
  ghost function Offered(lib: Library, value: Str): seq<Form> {
    var raw := lib.trimSpace(value);
    if |raw| < CRED_MIN_LEN then []
    else FormsOf(lib, raw) + Windows(raw, |raw| - CRED_FRAGMENT_WINDOW + 1)
  }

  ghost function OfferedBy(lib: Library, values: seq<Str>): seq<Form> {
    if values == [] then []
    else OfferedBy(lib, values[..|values| - 1]) + Offered(lib, values[|values| - 1])
  }

  // A form too short to register is dropped; of two with one pattern the first is kept.
  ghost function FirstWins(offers: seq<Form>): map<Str, string> {
    if offers == [] then map[]
    else
      var earlier := FirstWins(offers[..|offers| - 1]);
      var f := offers[|offers| - 1];
      if |f.pattern| < CRED_FRAGMENT_WINDOW || f.pattern in earlier then earlier
      else earlier[f.pattern := f.kind]
  }

  // What is registered, without the loop: the label is that of the first offer.
  lemma {:induction false} RegisteredIff(offers: seq<Form>, p: Str)
    ensures p in FirstWins(offers) <==>
            |p| >= CRED_FRAGMENT_WINDOW && exists k :: 0 <= k < |offers| && offers[k].pattern == p
    ensures p in FirstWins(offers) ==>
            exists k :: 0 <= k < |offers| && offers[k] == Form(p, FirstWins(offers)[p]) &&
                        forall j :: 0 <= j < k ==> offers[j].pattern != p
  {
    if offers != [] {
      var init := offers[..|offers| - 1];
      var last := |offers| - 1;
      RegisteredIff(init, p);
      if p in FirstWins(init) {
        var k :| 0 <= k < |init| && init[k] == Form(p, FirstWins(init)[p]) &&
                 forall j :: 0 <= j < k ==> init[j].pattern != p;
        assert offers[k] == init[k];
        assert forall j :: 0 <= j < k ==> offers[j].pattern == init[j].pattern;
      } else if |p| >= CRED_FRAGMENT_WINDOW && offers[last].pattern == p {
        assert forall j :: 0 <= j < last ==> offers[j] == init[j] && init[j].pattern != p;
        assert offers[last] == Form(p, FirstWins(offers)[p]);
      } else if |p| >= CRED_FRAGMENT_WINDOW {
        assert forall j :: 0 <= j < last ==> offers[j] == init[j];
      }
    }
  }

  // A value seen before offers nothing new.
  lemma {:induction false} RepeatsAddNothing(offers: seq<Form>, more: seq<Form>)
    requires forall f :: f in more ==> f in offers
    ensures FirstWins(offers + more) == FirstWins(offers)
  {
    if more == [] {
      assert offers + more == offers;
    } else {
      var init := more[..|more| - 1];
      var f := more[|more| - 1];
      assert (offers + more)[..|offers + more| - 1] == offers + init;
      assert f in offers;
      RepeatsAddNothing(offers, init);
      RegisteredIff(offers, f.pattern);
    }
  }

  lemma {:induction false} OfferedByEach(lib: Library, values: seq<Str>, v: Str, f: Form)
    requires v in values
    requires f in Offered(lib, v)
    ensures f in OfferedBy(lib, values)
  {
    var init, last := values[..|values| - 1], values[|values| - 1];
    if v != last {
      assert v in init;
      OfferedByEach(lib, init, v, f);
    }
  }

  // ---------------------------------------------------------------- what is caught

  // The patterns of a scrubber are the registered ones.
  ghost predicate Registers(patterns: seq<Str>, offers: seq<Form>) {
    forall p :: p in patterns <==> p in FirstWins(offers)
  }

  // WHAT COUNTS AS A FORM of a raw value, each with the label its match is logged under: the
  // value, its two base64 encodings and their unpadded ones, hex in either case, the two
  // escapings for a URL, and the value written backwards.
  ghost predicate WrittenAs(lib: Library, raw: Str, p: Str, kind: string) {
    || (p == raw && kind == "raw")
    || (p == lib.stdEncode(raw) && kind == "b64")
    || (p == lib.rawStdEncode(raw) && kind == "b64")
    || (p == lib.urlEncode(raw) && kind == "b64url")
    || (p == lib.rawUrlEncode(raw) && kind == "b64url")
    || (p == lib.hexLower(raw) && kind == "hex")
    || (p == lib.hexUpper(raw) && kind == "hex")
    || (p == lib.queryEscape(raw) && kind == "urlenc")
    || (p == lib.pathEscape(raw) && kind == "urlenc")
    || (|p| == |raw| && (forall i :: 0 <= i < |raw| ==> p[i] == raw[|raw| - 1 - i]) && kind == "reversed")
  }

  // Sixteen bytes of the raw value in a row.
  ghost predicate CutOut(raw: Str, p: Str, kind: string) {
    |p| == 16 && kind == "fragment" && exists k {:trigger raw[k..k + 16]} :: 0 <= k <= |raw| - 16 && p == raw[k..k + 16]
  }

  // A value gives `p` away under this label.
  ghost predicate GivesAway(lib: Library, v: Str, p: Str, kind: string) {
    |lib.trimSpace(v)| >= 16 && (WrittenAs(lib, lib.trimSpace(v), p, kind) || CutOut(lib.trimSpace(v), p, kind))
  }

  ghost predicate GivenAway(lib: Library, values: seq<Str>, p: Str, kind: string) {
    exists v :: v in values && GivesAway(lib, v, p, kind)
  }

  ghost predicate Secret(lib: Library, values: seq<Str>, p: Str) {
    |p| >= 16 && exists kind :: GivenAway(lib, values, p, kind)
  }

  // The bytes of `text` that stand in what gives a value away.
  ghost function SecretBytes(lib: Library, values: seq<Str>, text: Str): set<int> {
    set i | 0 <= i < |text| && InSecret(lib, values, text, i)
  }

  ghost predicate InSecret(lib: Library, values: seq<Str>, text: Str, i: int) {
    exists p, at {:trigger OccursAt(p, text, at)} :: Secret(lib, values, p) && OccursAt(p, text, at) && at <= i < at + |p|
  }

  lemma FormsAre(lib: Library, raw: Str, p: Str, kind: string)
    ensures Form(p, kind) in FormsOf(lib, raw) <==> WrittenAs(lib, raw, p, kind)
  {
    if |p| == |raw| && forall i :: 0 <= i < |raw| ==> p[i] == raw[|raw| - 1 - i] {
      assert p == Reversed(raw);
    }
  }

  lemma WindowsAre(raw: Str, p: Str, kind: string)
    requires |raw| >= CRED_MIN_LEN
    ensures Form(p, kind) in Windows(raw, |raw| - CRED_FRAGMENT_WINDOW + 1) <==> CutOut(raw, p, kind)
  {
    var windows := Windows(raw, |raw| - CRED_FRAGMENT_WINDOW + 1);
    if CutOut(raw, p, kind) {
      var k :| 0 <= k <= |raw| - 16 && p == raw[k..k + 16];
      assert windows[k] == Form(p, kind);
    }
    if Form(p, kind) in windows {
      var k :| 0 <= k < |windows| && windows[k] == Form(p, kind);
      assert p == raw[k..k + 16];
    }
  }

  lemma OfferedAre(lib: Library, v: Str, p: Str, kind: string)
    ensures Form(p, kind) in Offered(lib, v) <==> GivesAway(lib, v, p, kind)
  {
    var raw := lib.trimSpace(v);
    if |raw| >= CRED_MIN_LEN {
      FormsAre(lib, raw, p, kind);
      WindowsAre(raw, p, kind);
    }
  }

  lemma {:induction false} OfferedByAre(lib: Library, values: seq<Str>, p: Str, kind: string)
    ensures Form(p, kind) in OfferedBy(lib, values) <==> GivenAway(lib, values, p, kind)
  {
    if values != [] {
      var init, last := values[..|values| - 1], values[|values| - 1];
      OfferedByAre(lib, init, p, kind);
      OfferedAre(lib, last, p, kind);
      assert values == init + [last];
      assert GivenAway(lib, values, p, kind) <==> GivenAway(lib, init, p, kind) || GivesAway(lib, last, p, kind) by {
        assert last in values;
      }
    }
  }

  // WHAT IS REGISTERED is exactly what gives a value away and is not too short, under a label
  // of its own.
  lemma RegisteredAre(lib: Library, values: seq<Str>, p: Str)
    ensures p in FirstWins(OfferedBy(lib, values)) <==> Secret(lib, values, p)
    ensures p in FirstWins(OfferedBy(lib, values)) ==> GivenAway(lib, values, p, FirstWins(OfferedBy(lib, values))[p])
  {
    var offers := OfferedBy(lib, values);
    RegisteredIff(offers, p);
    if p in FirstWins(offers) {
      OfferedByAre(lib, values, p, FirstWins(offers)[p]);
    }
    if Secret(lib, values, p) {
      var kind :| GivenAway(lib, values, p, kind);
      OfferedByAre(lib, values, p, kind);
    }
  }

  // Every exact form of every value, wherever it stands, is covered throughout.
  lemma FormsAreCovered(lib: Library, values: seq<Str>, patterns: seq<Str>, v: Str, p: Str, kind: string, text: Str, at: nat)
    requires Registers(patterns, OfferedBy(lib, values))
    requires v in values && |lib.trimSpace(v)| >= 16
    requires WrittenAs(lib, lib.trimSpace(v), p, kind) && |p| >= 16
    requires OccursAt(p, text, at)
    ensures forall i :: at <= i < at + |p| ==> i in Cover(text, patterns)
  {
    assert GivesAway(lib, v, p, kind);
    OfferedByAre(lib, values, p, kind);
    OccurrenceIsCovered(OfferedBy(lib, values), patterns, Form(p, kind), text, at);
  }

  lemma OccurrenceIsCovered(offers: seq<Form>, patterns: seq<Str>, f: Form, text: Str, at: nat)
    requires Registers(patterns, offers)
    requires f in offers && |f.pattern| >= CRED_FRAGMENT_WINDOW
    requires OccursAt(f.pattern, text, at)
    ensures forall i :: at <= i < at + |f.pattern| ==> i in Cover(text, patterns)
  {
    RegisteredIff(offers, f.pattern);
    assert f.pattern in patterns;
    assert Hit(Match(at, at + |f.pattern|), text, patterns);
    forall i | at <= i < at + |f.pattern|
      ensures CoveredAt(text, patterns, i)
    {
    }
  }

  // Every piece of a raw value that is at least a window long is covered throughout,
  // wherever the value was cut.
  lemma FragmentsAreCovered(lib: Library, values: seq<Str>, patterns: seq<Str>, v: Str, from: nat, to: nat,
                            text: Str, at: nat)
    requires Registers(patterns, OfferedBy(lib, values))
    requires v in values && |lib.trimSpace(v)| >= CRED_MIN_LEN
    requires from + CRED_FRAGMENT_WINDOW <= to <= |lib.trimSpace(v)|
    requires OccursAt(lib.trimSpace(v)[from..to], text, at)
    ensures forall i :: at <= i < at + (to - from) ==> i in Cover(text, patterns)
  {
    forall i | at <= i < at + (to - from)
      ensures i in Cover(text, patterns)
    {
      // the window that starts at i, or the last one of the piece
      var o := if i - at + CRED_FRAGMENT_WINDOW <= to - from then i - at else to - from - CRED_FRAGMENT_WINDOW;
      WindowIsCovered(lib, values, patterns, v, from, to, text, at, o);
    }
  }

  lemma WindowIsCovered(lib: Library, values: seq<Str>, patterns: seq<Str>, v: Str, from: nat, to: nat,
                        text: Str, at: nat, o: nat)
    requires Registers(patterns, OfferedBy(lib, values))
    requires v in values && |lib.trimSpace(v)| >= CRED_MIN_LEN
    requires from + o + CRED_FRAGMENT_WINDOW <= to <= |lib.trimSpace(v)|
    requires OccursAt(lib.trimSpace(v)[from..to], text, at)
    ensures forall i :: at + o <= i < at + o + CRED_FRAGMENT_WINDOW ==> i in Cover(text, patterns)
  {
    var raw := lib.trimSpace(v);
    WindowOffered(lib, values, v, from + o);
    WindowOccurs(raw, from, to, text, at, o);
    OccurrenceIsCovered(OfferedBy(lib, values), patterns, WindowAt(raw, from + o), text, at + o);
  }

  ghost function WindowAt(raw: Str, k: nat): Form
    requires k + CRED_FRAGMENT_WINDOW <= |raw|
  {
    Form(raw[k..k + CRED_FRAGMENT_WINDOW], "fragment")
  }

  lemma WindowOffered(lib: Library, values: seq<Str>, v: Str, k: nat)
    requires v in values && |lib.trimSpace(v)| >= CRED_MIN_LEN
    requires k + CRED_FRAGMENT_WINDOW <= |lib.trimSpace(v)|
    ensures WindowAt(lib.trimSpace(v), k) in OfferedBy(lib, values)
  {
    var raw := lib.trimSpace(v);
    var windows := Windows(raw, |raw| - CRED_FRAGMENT_WINDOW + 1);
    assert windows[k] in Offered(lib, v);
    OfferedByEach(lib, values, v, windows[k]);
  }

  lemma WindowOccurs(raw: Str, from: nat, to: nat, text: Str, at: nat, o: nat)
    requires from <= to <= |raw| && o + CRED_FRAGMENT_WINDOW <= to - from
    requires OccursAt(raw[from..to], text, at)
    ensures OccursAt(raw[from + o..from + o + CRED_FRAGMENT_WINDOW], text, at + o)
  {
    SliceOfSlice(raw, from, to, o, o + CRED_FRAGMENT_WINDOW);
    SliceOfSlice(text, at, at + (to - from), o, o + CRED_FRAGMENT_WINDOW);
  }

  // ---------------------------------------------------------------- the scrubber

  // What a scan returned says exactly where the patterns are.
  lemma ScanIsHits(out: seq<Match>, text: Str, patterns: seq<Str>, m: Match)
    requires forall m: Match :: Count(m, out) == Occurrences(m, text, patterns)
    ensures m in out <==> Hit(m, text, patterns)
  {
    assert Count(m, out) == Occurrences(m, text, patterns);
  }

  // Distinct patterns: every occurrence is reported once.
  lemma ScanReportsOnce(out: seq<Match>, text: Str, patterns: seq<Str>, i: nat, j: nat)
    requires forall m: Match :: Count(m, out) == Occurrences(m, text, patterns)
    requires Distinct(patterns)
    requires i < j < |out|
    ensures out[i] != out[j]
  {
    if out[i] == out[j] {
      var m := out[i];
      assert Count(m, out) == Occurrences(m, text, patterns);
      AtMostOnce(patterns, text[m.start..m.end]);
      CountTwo(out, i, j);
    }
  }

  ghost predicate Distinct<T>(s: seq<T>) {
    forall i, j :: 0 <= i < j < |s| ==> s[i] != s[j]
  }

  lemma AtMostOnce<T>(s: seq<T>, x: T)
    requires Distinct(s)
    ensures Count(x, s) <= 1
  {
    if s != [] {
      AtMostOnce(s[..|s| - 1], x);
      CountSnoc(s, s[..|s| - 1], s[|s| - 1], x);
    }
  }

  lemma CountTwo<T>(s: seq<T>, i: nat, j: nat)
    requires i < j < |s| && s[i] == s[j]
    ensures Count(s[i], s) >= 2
  {
    assert s == s[..j] + s[j..];
    CountAppend(s[..j], s[j..], s[i]);
    assert s[..j][i] == s[i] && s[j..][0] == s[i];
  }

  class CredScrubber {
    const ac: Matcher
    const kindOf: map<Str, string>

    ghost predicate Valid()
      reads this, ac
    {
      && ac.Valid()
      && Distinct(ac.patterns)
      && (forall p :: p in ac.patterns <==> p in kindOf)
      && (forall p :: p in kindOf ==> |p| >= CRED_FRAGMENT_WINDOW)
    }

    constructor (ac: Matcher, kindOf: map<Str, string>)
      ensures this.ac == ac && this.kindOf == kindOf
    {
      this.ac := ac;
      this.kindOf := kindOf;
    }

    // buildCredScrubber; null when there is nothing to match.
    static method Build(lib: Library, values: seq<Str>) returns (c: CredScrubber?)
      ensures c == null <==> FirstWins(OfferedBy(lib, values)) == map[]
      ensures c != null ==> c.Valid() && c.kindOf == FirstWins(OfferedBy(lib, values))
    {
      var patterns := Register(lib, values);
      if patterns == map[] {
        return null;
      }
      var list: seq<Str> := [];
      var keys := patterns.Keys;
      while keys != {}
        invariant Distinct(list)
        invariant keys <= patterns.Keys
        invariant forall p :: p in list <==> p in patterns && p !in keys
      {
        var p :| p in keys;
        list := list + [p];
        keys := keys - {p};
      }
      var ac := new Matcher(list);
      c := new CredScrubber(ac, patterns);
      forall p | p in patterns
        ensures |p| >= CRED_FRAGMENT_WINDOW
      {
        RegisteredIff(OfferedBy(lib, values), p);
      }
    }

    // The registering loop of buildCredScrubber.
    static method Register(lib: Library, values: seq<Str>) returns (patterns: map<Str, string>)
      ensures patterns == FirstWins(OfferedBy(lib, values))
    {
      patterns := map[];
      var seen: set<Str> := {};
      for k := 0 to |values|
        invariant patterns == FirstWins(OfferedBy(lib, values[..k]))
        invariant forall r :: r in seen ==> |r| >= CRED_MIN_LEN && exists j :: 0 <= j < k && lib.trimSpace(values[j]) == r
      {
        var raw := lib.trimSpace(values[k]);
        if |raw| < CRED_MIN_LEN || raw in seen {
          SkippedAddsNothing(lib, values, k);
          continue;
        }
        seen := seen + {raw};
        OfferedSnoc(lib, values, k);
        patterns := AddValue(lib, patterns, values[k], raw, OfferedBy(lib, values[..k]));
      }
      assert values[..|values|] == values;
    }

    static lemma OfferedSnoc(lib: Library, values: seq<Str>, k: nat)
      requires k < |values|
      ensures OfferedBy(lib, values[..k + 1]) == OfferedBy(lib, values[..k]) + Offered(lib, values[k])
    {
      assert values[..k + 1][..k] == values[..k];
    }

    // The `add` closure.
    static function Add(patterns: map<Str, string>, f: Form): map<Str, string> {
      if |f.pattern| < CRED_FRAGMENT_WINDOW || f.pattern in patterns then patterns
      else patterns[f.pattern := f.kind]
    }

    static lemma AddIsFirstWins(offers: seq<Form>, f: Form)
      ensures FirstWins(offers + [f]) == Add(FirstWins(offers), f)
    {
      assert (offers + [f])[..|offers|] == offers;
    }

    // Both inner loops, for one value.
    static method AddValue(lib: Library, before: map<Str, string>, ghost value: Str, raw: Str, ghost offers: seq<Form>)
        returns (patterns: map<Str, string>)
      requires before == FirstWins(offers)
      requires raw == lib.trimSpace(value) && |raw| >= CRED_MIN_LEN
      ensures patterns == FirstWins(offers + Offered(lib, value))
    {
      patterns := AddBoth(before, FormsOf(lib, raw), raw, offers);
      OfferedIs(lib, value);
    }

    static method AddBoth(before: map<Str, string>, forms: seq<Form>, raw: Str, ghost offers: seq<Form>)
        returns (patterns: map<Str, string>)
      requires before == FirstWins(offers) && |raw| >= CRED_MIN_LEN
      ensures patterns == FirstWins(offers + (forms + Windows(raw, |raw| - CRED_FRAGMENT_WINDOW + 1)))
    {
      ghost var windows := Windows(raw, |raw| - CRED_FRAGMENT_WINDOW + 1);
      patterns := AddForms(before, forms, offers);
      patterns := AddWindows(patterns, raw, windows, offers + forms);
      Reassociate(offers, forms, windows);
    }

    static lemma OfferedIs(lib: Library, value: Str)
      requires |lib.trimSpace(value)| >= CRED_MIN_LEN
      ensures Offered(lib, value) ==
              FormsOf(lib, lib.trimSpace(value)) +
              Windows(lib.trimSpace(value), |lib.trimSpace(value)| - CRED_FRAGMENT_WINDOW + 1)
    {
    }

    static method AddForms(before: map<Str, string>, forms: seq<Form>, ghost offers: seq<Form>)
        returns (patterns: map<Str, string>)
      requires before == FirstWins(offers)
      ensures patterns == FirstWins(offers + forms)
    {
      patterns := before;
      assert offers + forms[..0] == offers;
      for j := 0 to |forms|
        invariant patterns == FirstWins(offers + forms[..j])
      {
        AddIsFirstWins(offers + forms[..j], forms[j]);
        AppendTake(offers, forms, j);
        patterns := Add(patterns, forms[j]);
      }
      assert forms[..|forms|] == forms;
    }

    static method AddWindows(before: map<Str, string>, raw: Str, ghost windows: seq<Form>, ghost offers: seq<Form>)
        returns (patterns: map<Str, string>)
      requires before == FirstWins(offers)
      requires |raw| >= CRED_MIN_LEN
      requires windows == Windows(raw, |raw| - CRED_FRAGMENT_WINDOW + 1)
      ensures patterns == FirstWins(offers + windows)
    {
      patterns := before;
      var i := 0;
      assert offers + windows[..0] == offers;
      while i + CRED_FRAGMENT_WINDOW <= |raw|
        invariant 0 <= i <= |windows|
        invariant patterns == FirstWins(offers + windows[..i])
      {
        var f := Form(raw[i..i + CRED_FRAGMENT_WINDOW], "fragment");
        AddIsFirstWins(offers + windows[..i], f);
        AppendTake(offers, windows, i);
        patterns := Add(patterns, f);
        i := i + 1;
      }
      assert windows[..i] == windows;
    }

    // A value too short, or seen before, offers nothing new.
    static lemma SkippedAddsNothing(lib: Library, values: seq<Str>, k: nat)
      requires k < |values|
      requires |lib.trimSpace(values[k])| < CRED_MIN_LEN ||
               exists j :: 0 <= j < k && lib.trimSpace(values[j]) == lib.trimSpace(values[k])
      ensures FirstWins(OfferedBy(lib, values[..k + 1])) == FirstWins(OfferedBy(lib, values[..k]))
    {
      OfferedSnoc(lib, values, k);
      var offers, more := OfferedBy(lib, values[..k]), Offered(lib, values[k]);
      if |lib.trimSpace(values[k])| < CRED_MIN_LEN {
        assert offers + more == offers;
      } else {
        var j: nat :| j < k && lib.trimSpace(values[j]) == lib.trimSpace(values[k]);
        OffersRepeat(lib, values, j, k);
        RepeatsAddNothing(offers, more);
      }
    }

    static lemma OffersRepeat(lib: Library, values: seq<Str>, j: nat, k: nat)
      requires j < k < |values| && lib.trimSpace(values[j]) == lib.trimSpace(values[k])
      ensures forall f :: f in Offered(lib, values[k]) ==> f in OfferedBy(lib, values[..k])
    {
      assert values[..k][j] == values[j];
      forall f | f in Offered(lib, values[k])
        ensures f in OfferedBy(lib, values[..k])
      {
        OfferedByEach(lib, values[..k], values[j], f);
      }
    }

    // What building and redacting come to: each byte of `out` is as Redacted says of the bytes
    // that belong to some occurrence of what gives a value away, and every such occurrence lies
    // inside one stretch that is replaced whole.
    static method BuildAndRedact(lib: Library, values: seq<Str>, text: Str) returns (out: Str, count: nat)
      ensures out == Redacted(text, SecretBytes(lib, values, text), PLACEHOLDER, 0)
      ensures count == Runs(text, SecretBytes(lib, values, text), 0)
      ensures forall p, at {:trigger OccursAt(p, text, at)} :: Secret(lib, values, p) && OccursAt(p, text, at) ==>
                InOneRun(text, SecretBytes(lib, values, text), at, at + |p|) && count > 0
    {
      var c := Build(lib, values);
      ghost var patterns := if c == null then [] else c.ac.patterns;
      forall p
        ensures p in patterns <==> Secret(lib, values, p)
      {
        RegisteredAre(lib, values, p);
      }
      SecretsAreCovered(lib, values, text, patterns);
      if c == null {
        NothingCovered(text, patterns);
      }
      out, count := Redact(c, text);
    }

    // scan: whether any form stands in the text, and the kinds of those that do.
    static method Scan(c: CredScrubber?, text: Str) returns (hit: bool, kinds: set<string>)
      requires c != null ==> c.Valid()
      ensures hit <==> c != null && Cover(text, c.ac.patterns) != {}
      ensures c == null ==> kinds == {}
      ensures c != null ==> forall kind :: kind in kinds <==>
                exists m :: Hit(m, text, c.ac.patterns) && c.kindOf[text[m.start..m.end]] == kind
    {
      if c == null {
        return false, {};
      }
      var matches, _, _ := c.ac.Matches(text);
      kinds := {};
      for k := 0 to |matches|
        invariant forall kind :: kind in kinds ==>
                    exists m :: Hit(m, text, c.ac.patterns) && c.kindOf[text[m.start..m.end]] == kind
        invariant forall j :: 0 <= j < k ==>
                    (Hit(matches[j], text, c.ac.patterns) && c.kindOf[text[matches[j].start..matches[j].end]] in kinds)
      {
        var m := matches[k];
        ScanIsHits(matches, text, c.ac.patterns, m);
        kinds := kinds + {c.kindOf[text[m.start..m.end]]};
      }
      forall m: Match | Hit(m, text, c.ac.patterns)
        ensures c.kindOf[text[m.start..m.end]] in kinds
      {
        ScanIsHits(matches, text, c.ac.patterns, m);
      }
      HitIsCover(text, c.ac.patterns);
      hit := kinds != {};
    }

    // redact: every covered run replaced, and how many there were.
    static method Redact(c: CredScrubber?, text: Str) returns (out: Str, count: nat)
      requires c != null ==> c.Valid()
      ensures c == null ==> out == text && count == 0
      ensures c != null ==> out == RedactText(text, c.ac.patterns)
      ensures c != null ==> count == Runs(text, Cover(text, c.ac.patterns), 0)
      ensures count > 0 <==> c != null && Cover(text, c.ac.patterns) != {}
    {
      if c == null {
        return text, 0;
      }
      ghost var cover := Cover(text, c.ac.patterns);
      var matches, _, _ := c.ac.Matches(text);
      MatchesCover(matches, text, c.ac.patterns);
      if |matches| == 0 {
        NothingCovered(text, c.ac.patterns);
        return text, 0;
      }
      var sorted := SortMatches(matches);
      SortKeepsCover(matches, sorted);
      var spans := MergeSpans(sorted, |text|);
      out := ReplaceSpans(text, spans, cover);
      count := |spans|;
      assert matches[0].start in cover by {
        assert InSome(matches, matches[0].start);
      }
    }
  }

  // One maximal covered stretch holds all of `s..e`.
  ghost predicate InOneRun(text: Str, cover: set<int>, s: int, e: int) {
    exists a, b :: a <= s && e <= b && MaximalRun(text, cover, a, b)
  }

  ghost predicate MaximalRun(text: Str, cover: set<int>, a: int, b: int) {
    0 <= a < b <= |text| && a - 1 !in cover && b !in cover && forall i :: a <= i < b ==> i in cover
  }

  lemma SecretsAreCovered(lib: Library, values: seq<Str>, text: Str, patterns: seq<Str>)
    requires forall p :: p in patterns <==> Secret(lib, values, p)
    ensures Cover(text, patterns) == SecretBytes(lib, values, text)
    ensures forall p, at {:trigger OccursAt(p, text, at)} ::
              Secret(lib, values, p) && OccursAt(p, text, at) ==>
                InOneRun(text, Cover(text, patterns), at, at + |p|) && Cover(text, patterns) != {}
  {
    var cover := Cover(text, patterns);
    forall i | i in cover
      ensures i in SecretBytes(lib, values, text)
    {
      var m :| Hit(m, text, patterns) && m.start <= i < m.end;
      assert OccursAt(text[m.start..m.end], text, m.start);
    }
    forall p, at {:trigger OccursAt(p, text, at)} | Secret(lib, values, p) && OccursAt(p, text, at)
      ensures forall i :: at <= i < at + |p| ==> i in cover
      ensures InOneRun(text, cover, at, at + |p|) && cover != {}
    {
      assert Hit(Match(at, at + |p|), text, patterns);
      forall i | at <= i < at + |p|
        ensures CoveredAt(text, patterns, i)
      {
      }
      var a, b := RunAround(text, cover, at, at + |p|);
      assert MaximalRun(text, cover, a, b) && at in cover;
    }
  }

  lemma HitIsCover(text: Str, patterns: seq<Str>)
    ensures Cover(text, patterns) != {} <==> exists m :: Hit(m, text, patterns)
  {
    forall m | Hit(m, text, patterns)
      ensures m.start in Cover(text, patterns)
    {
      assert CoveredAt(text, patterns, m.start);
    }
    if Cover(text, patterns) != {} {
      var i :| i in Cover(text, patterns);
      assert CoveredAt(text, patterns, i);
    }
  }

  lemma MatchesCover(matches: seq<Match>, text: Str, patterns: seq<Str>)
    requires forall m: Match :: Count(m, matches) == Occurrences(m, text, patterns)
    ensures forall i :: i in Cover(text, patterns) <==> InSome(matches, i)
    ensures forall m :: m in matches ==> 0 <= m.start < m.end <= |text|
    ensures matches == [] ==> Cover(text, patterns) == {}
  {
    forall k | 0 <= k < |matches|
      ensures Hit(matches[k], text, patterns)
    {
      ScanIsHits(matches, text, patterns, matches[k]);
    }
    forall i
      ensures CoveredAt(text, patterns, i) <==> InSome(matches, i)
    {
      if CoveredAt(text, patterns, i) {
        var m :| Hit(m, text, patterns) && m.start <= i < m.end;
        ScanIsHits(matches, text, patterns, m);
        var k :| 0 <= k < |matches| && matches[k] == m;
      }
    }
  }

  lemma SortKeepsCover(ms: seq<Match>, sorted: seq<Match>)
    requires multiset(sorted) == multiset(ms)
    ensures forall i :: InSome(sorted, i) <==> InSome(ms, i)
    ensures forall m :: m in sorted <==> m in ms
    ensures sorted == [] <==> ms == []
  {
    forall m
      ensures m in sorted <==> m in ms
    {
      assert m in multiset(sorted) <==> m in multiset(ms);
    }
    forall i
      ensures InSome(sorted, i) <==> InSome(ms, i)
    {
      if InSome(sorted, i) {
        var k :| 0 <= k < |sorted| && sorted[k].start <= i < sorted[k].end;
        assert sorted[k] in ms;
        var j :| 0 <= j < |ms| && ms[j] == sorted[k];
      }
      if InSome(ms, i) {
        var k :| 0 <= k < |ms| && ms[k].start <= i < ms[k].end;
        assert ms[k] in sorted;
        var j :| 0 <= j < |sorted| && sorted[j] == ms[k];
      }
    }
    assert |sorted| == |multiset(sorted)| == |multiset(ms)| == |ms|;
  }
}
