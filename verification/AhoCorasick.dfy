/**
 The multi-pattern matcher of daemon/ahocorasick.go: a trie whose nodes carry a failure
 link, filled in breadth-first, and the lengths of every pattern that ends at the node.

 Nodes are numbers into one growing list. `word[s]`, a ghost, is the string spelled on the
 path from the root to node `s`; everything the automaton does is stated about these words.
 */
module AhoCorasick {
  import opened Bytes

  datatype Node = Node(next: map<Byte, nat>, fail: nat, outLen: seq<int>)

  datatype Match = Match(start: int, end: int)

  // ---------------------------------------------------------------- what the words mean

  // `w` is the longest word of `words` that ends `t`.
  ghost predicate Longest(w: Str, t: Str, words: seq<Str>) {
    && w in words
    && Suffix(w, t)
    && forall u {:trigger Suffix(u, t)} :: u in words && Suffix(u, t) ==> |u| <= |w|
  }

  // `w` is the longest word of `words` that ends `t` without being all of it.
  ghost predicate LongestProper(w: Str, t: Str, words: seq<Str>) {
    && w in words
    && Suffix(w, t)
    && |w| < |t|
    && forall u {:trigger Suffix(u, t)} :: u in words && Suffix(u, t) && |u| < |t| ==> |u| <= |w|
  }

  // The nodes are a tree: one word each, closed under taking prefixes, and an edge for
  // exactly those one-byte extensions that are words again.
  ghost predicate Trie(nodes: seq<Node>, word: seq<Str>) {
    && |nodes| == |word| > 0
    && word[0] == []
    && (forall s, t {:trigger SameWord(word, s, t)} :: 0 <= s < |word| && 0 <= t < |word| && SameWord(word, s, t) ==> s == t)
    && (forall t {:trigger HasParent(word, t)} :: 0 < t < |word| ==> HasParent(word, t))
    && (forall s, b {:trigger nodes[s].next[b]} :: 0 <= s < |nodes| && b in nodes[s].next ==>
          0 < nodes[s].next[b] < |nodes| && word[nodes[s].next[b]] == word[s] + [b])
    && (forall s, b: Byte {:trigger word[s] + [b]} ::
          0 <= s < |nodes| && word[s] + [b] in word ==> b in nodes[s].next)
  }

  ghost predicate SameWord(word: seq<Str>, s: int, t: int)
    requires 0 <= s < |word| && 0 <= t < |word|
  {
    word[s] == word[t]
  }

  ghost predicate HasParent(word: seq<Str>, t: int)
    requires 0 <= t < |word|
  {
    word[t] != [] && exists p: nat :: p < |word| && word[p] == word[t][..|word[t]| - 1]
  }

  // Every pattern is a word, and every word but the empty one begins a pattern; in a trie
  // this makes the words exactly the prefixes of the patterns (`WordsArePrefixes`).
  ghost predicate Spells(word: seq<Str>, patterns: seq<Str>) {
    && (forall p :: p in patterns ==> p in word)
    && (forall w {:trigger BeginsOne(w, patterns)} :: w in word && w != [] ==> BeginsOne(w, patterns))
  }

  ghost predicate BeginsOne(w: Str, patterns: seq<Str>) {
    exists p :: p in patterns && w <= p
  }

  // Before the failure links are built: a node holds its own pattern's length, once for
  // every time the pattern was given.
  ghost predicate OwnOut(out: seq<int>, w: Str, patterns: seq<Str>) {
    && (forall i :: 0 <= i < |out| ==> out[i] == |w|)
    && |out| == if w == [] then 0 else Count(w, patterns)
  }

  // How often a pattern of length `l` ends `w`.
  ghost function Ending(w: Str, l: int, patterns: seq<Str>): nat {
    if 1 <= l <= |w| then Count(w[|w| - l..], patterns) else 0
  }

  // After: every pattern that ends the node's word, longest first, with multiplicity.
  ghost predicate FullOut(out: seq<int>, w: Str, patterns: seq<Str>) {
    && (forall i, j :: 0 <= i < j < |out| ==> out[i] >= out[j])
    && (forall l :: Count(l, out) == Ending(w, l, patterns))
  }

  // `w` is the longest suffix of `t` that begins a pattern; empty when none does.
  ghost predicate LongestBeginning(w: Str, t: Str, patterns: seq<Str>) {
    && (w == [] || BeginsOne(w, patterns))
    && Suffix(w, t)
    && forall u {:trigger Suffix(u, t)} :: BeginsOne(u, patterns) && Suffix(u, t) ==> |u| <= |w|
  }

  ghost predicate FailOk(nodes: seq<Node>, word: seq<Str>, s: nat)
    requires |nodes| == |word|
    requires s < |nodes|
  {
    && nodes[s].fail < |nodes|
    && if s == 0 then nodes[s].fail == 0 else LongestProper(word[nodes[s].fail], word[s], word)
  }

  // A finished automaton for `patterns`.
  ghost predicate Automaton(nodes: seq<Node>, word: seq<Str>, patterns: seq<Str>) {
    && Trie(nodes, word)
    && Spells(word, patterns)
    && (forall s :: 0 <= s < |nodes| ==> FailOk(nodes, word, s))
    && (forall s :: 0 <= s < |nodes| ==> FullOut(nodes[s].outLen, word[s], patterns))
  }

  // ---------------------------------------------------------------- lemmas about words

  lemma EdgeSpells(nodes: seq<Node>, word: seq<Str>, s: nat, b: Byte)
    requires Trie(nodes, word)
    requires s < |nodes| && b in nodes[s].next
    ensures 0 < nodes[s].next[b] < |nodes|
    ensures word[nodes[s].next[b]] == word[s] + [b]
  {
  }

  // A word of a trie whose last byte is taken off is still a word.
  lemma ParentIsWord(nodes: seq<Node>, word: seq<Str>, w: Str, b: Byte)
    requires Trie(nodes, word)
    requires w + [b] in word
    ensures w in word
  {
    var t :| 0 <= t < |word| && word[t] == w + [b];
    assert HasParent(word, t);
    assert word[t][..|word[t]| - 1] == w;
  }

  lemma {:induction false} PrefixIsWord(nodes: seq<Node>, word: seq<Str>, p: Str, k: nat)
    requires Trie(nodes, word)
    requires p in word && k <= |p|
    ensures p[..k] in word
    decreases |p| - k
  {
    if k == |p| {
      assert p[..k] == p;
    } else {
      PrefixIsWord(nodes, word, p, k + 1);
      TakeSnoc(p, k);
      ParentIsWord(nodes, word, p[..k], p[k]);
    }
  }

  // The words are exactly the prefixes of the patterns, and the empty word.
  lemma WordsArePrefixes(nodes: seq<Node>, word: seq<Str>, patterns: seq<Str>, w: Str)
    requires Trie(nodes, word) && Spells(word, patterns)
    ensures w in word <==> w == [] || BeginsOne(w, patterns)
  {
    if w == [] {
      assert word[0] in word;
    } else if BeginsOne(w, patterns) {
      var p :| p in patterns && w <= p;
      PrefixIsWord(nodes, word, p, |w|);
      assert p[..|w|] == w;
    }
  }

  // So the longest word ending `t` is the longest suffix of `t` that begins a pattern.
  lemma LongestBegins(nodes: seq<Node>, word: seq<Str>, patterns: seq<Str>, w: Str, t: Str)
    requires Trie(nodes, word) && Spells(word, patterns)
    ensures Longest(w, t, word) <==> LongestBeginning(w, t, patterns)
  {
    forall u
      ensures u in word <==> u == [] || BeginsOne(u, patterns)
    {
      WordsArePrefixes(nodes, word, patterns, u);
    }
  }

  // The longest word ending t+[b] only depends on the longest word ending t: this is what
  // lets the automaton forget the text it has read.
  lemma {:induction false} LongestAdvances(nodes: seq<Node>, word: seq<Str>, w: Str, t: Str, b: Byte, v: Str)
    requires Trie(nodes, word)
    requires Longest(w, t, word)
    requires Longest(v, w + [b], word)
    ensures Longest(v, t + [b], word)
  {
    SuffixSnoc(w, t, b);
    SuffixTransitive(v, w + [b], t + [b]);
    forall u | u in word && Suffix(u, t + [b])
      ensures |u| <= |v|
    {
      if u != [] {
        var u' := u[..|u| - 1];
        assert (t + [b])[|t| + 1 - |u|..][|u| - 1] == b;
        assert u == u' + [b];
        SuffixSnoc(u', t, b);
        ParentIsWord(nodes, word, u', b);
        SuffixOfShorter(u', w, t);
        SuffixSnoc(u', w, b);
      }
    }
  }

  // `f` is where following failure links from a node spelling `w` has got to in the search
  // for an edge on `b`: no longer candidate has been passed over. `proper` leaves `w`
  // itself out of the candidates, which is how the links themselves are computed.
  ghost predicate Searching(f: Str, w: Str, b: Byte, proper: bool, word: seq<Str>) {
    && f in word
    && Suffix(f, w)
    && (proper ==> |f| < |w|)
    && forall u :: u in word && Suffix(u, w) && (proper ==> |u| < |w|) && u + [b] in word ==> |u| <= |f|
  }

  lemma SearchHops(nodes: seq<Node>, word: seq<Str>, s: nat, w: Str, b: Byte, proper: bool)
    requires Trie(nodes, word)
    requires 0 < s < |nodes| && FailOk(nodes, word, s)
    requires Searching(word[s], w, b, proper, word)
    requires b !in nodes[s].next
    ensures Searching(word[nodes[s].fail], w, b, proper, word)
    ensures |word[nodes[s].fail]| < |word[s]|
  {
    var f := word[nodes[s].fail];
    SuffixTransitive(f, word[s], w);
    forall u | u in word && Suffix(u, w) && (proper ==> |u| < |w|) && u + [b] in word
      ensures |u| <= |f|
    {
      SuffixOfShorter(u, word[s], w);
      assert word[s] + [b] !in word;
      assert u != word[s];
    }
  }

  // The search ends at an edge: the edge's target is the longest word sought.
  lemma SearchFinds(nodes: seq<Node>, word: seq<Str>, s: nat, w: Str, b: Byte, proper: bool)
    requires Trie(nodes, word)
    requires s < |nodes| && b in nodes[s].next
    requires Searching(word[s], w, b, proper, word)
    ensures proper ==> LongestProper(word[nodes[s].next[b]], w + [b], word)
    ensures !proper ==> Longest(word[nodes[s].next[b]], w + [b], word)
  {
    SuffixSnoc(word[s], w, b);
    forall u | u in word && Suffix(u, w + [b]) && (proper ==> |u| < |w| + 1)
      ensures |u| <= |word[s]| + 1
    {
      CandidateIsExtension(nodes, word, u, w, b);
    }
  }

  // The search ends at the root without an edge: only the empty word is left.
  lemma SearchFails(nodes: seq<Node>, word: seq<Str>, w: Str, b: Byte, proper: bool)
    requires Trie(nodes, word)
    requires b !in nodes[0].next
    requires Searching([], w, b, proper, word)
    ensures proper ==> LongestProper([], w + [b], word)
    ensures !proper ==> Longest([], w + [b], word)
  {
    assert word[0] + [b] == [b] && [b] !in word;
    forall u | u in word && Suffix(u, w + [b]) && (proper ==> |u| < |w| + 1)
      ensures |u| <= 0
    {
      CandidateIsExtension(nodes, word, u, w, b);
      assert |u| == 1 ==> u == [b];
    }
  }

  lemma CandidateIsExtension(nodes: seq<Node>, word: seq<Str>, u: Str, w: Str, b: Byte)
    requires Trie(nodes, word)
    requires u in word && Suffix(u, w + [b])
    ensures u != [] ==> u == u[..|u| - 1] + [b] && u[..|u| - 1] in word && Suffix(u[..|u| - 1], w)
  {
    if u != [] {
      var u' := u[..|u| - 1];
      assert (w + [b])[|w| + 1 - |u|..][|u| - 1] == b;
      assert u == u' + [b];
      SuffixSnoc(u', w, b);
      ParentIsWord(nodes, word, u', b);
    }
  }

  // Flattening: a node's own pattern lengths followed by everything its failure node
  // reports is everything that ends the node's word.
  lemma OutFlattens(own: seq<int>, rest: seq<int>, w: Str, f: Str, word: seq<Str>, patterns: seq<Str>)
    requires w != [] && OwnOut(own, w, patterns)
    requires FullOut(rest, f, patterns)
    requires LongestProper(f, w, word)
    requires forall p :: p in patterns ==> p in word
    ensures FullOut(own + rest, w, patterns)
  {
    forall l
      ensures Count(l, own + rest) == Ending(w, l, patterns)
    {
      SameCount(own, |w|, l);
      CountAppend(own, rest, l);
      if 1 <= l < |w| {
        var u := w[|w| - l..];
        assert Suffix(u, w);
        if l <= |f| {
          assert u == f[|f| - l..];
        } else {
          assert u !in word;
          assert u !in patterns;
        }
      } else if l == |w| {
        assert w[|w| - l..] == w;
      }
    }
    forall i, j | 0 <= i < j < |own + rest|
      ensures (own + rest)[i] >= (own + rest)[j]
    {
      if i < |own| <= j {
        var l := rest[j - |own|];
        assert Count(l, rest) > 0;
        assert l <= |f|;
      }
    }
  }

  lemma {:induction false} SameCount(own: seq<int>, n: int, l: int)
    requires forall i :: 0 <= i < |own| ==> own[i] == n
    ensures Count(l, own) == if l == n then |own| else 0
  {
    if own != [] {
      SameCount(own[1..], n, l);
      assert own == [own[0]] + own[1..];
    }
  }

  // ---------------------------------------------------------------- breadth-first order

  // Where the breadth-first pass is: `popped` have been taken off the queue, and the nodes
  // with a failure link are those and the ones still queued.
  ghost predicate Order(nodes: seq<Node>, word: seq<Str>, popped: set<nat>, queue: seq<nat>)
    requires |nodes| == |word|
  {
    && (forall s :: s in popped ==> s < |nodes|)
    && (forall i :: 0 <= i < |queue| ==> 0 < queue[i] < |nodes| && queue[i] !in popped)
    && (forall i, j :: 0 <= i < j < |queue| ==> queue[i] != queue[j])
    && (forall i, j :: 0 <= i < j < |queue| ==> |word[queue[i]]| <= |word[queue[j]]| <= |word[queue[i]]| + 1)
    && 0 in popped
  }

  ghost predicate Reached(t: nat, popped: set<nat>, queue: seq<nat>) {
    t in popped || t in queue
  }

  // A node has been reached exactly if its parent has been popped; `skip` are the edges of
  // node `cur` still to be visited.
  ghost predicate Frontier(nodes: seq<Node>, popped: set<nat>, queue: seq<nat>, cur: nat, skip: set<Byte>) {
    forall s, b {:trigger nodes[s].next[b]} :: 0 <= s < |nodes| && b in nodes[s].next ==>
      (Reached(nodes[s].next[b], popped, queue) <==> s in popped && !(s == cur && b in skip))
  }

  // The one edge that leads to a node other than the root.
  lemma ParentEdge(nodes: seq<Node>, word: seq<Str>, t: nat) returns (p: nat, b: Byte)
    requires Trie(nodes, word)
    requires 0 < t < |nodes|
    ensures p < |nodes| && b in nodes[p].next && nodes[p].next[b] == t
    ensures word[t] == word[p] + [b]
  {
    assert HasParent(word, t);
    var w := word[t][..|word[t]| - 1];
    b := word[t][|word[t]| - 1];
    assert word[t] == w + [b];
    p :| p < |word| && word[p] == w;
    assert word[p] + [b] in word;
    assert SameWord(word, nodes[p].next[b], t);
  }

  // Every node no deeper than the node being processed has its link already.
  lemma {:induction false} ShallowReached(nodes: seq<Node>, word: seq<Str>, popped: set<nat>, queue: seq<nat>,
                                          cur: nat, skip: set<Byte>, t: nat)
    requires Trie(nodes, word)
    requires Order(nodes, word, popped, queue)
    requires Frontier(nodes, popped, queue, cur, skip)
    requires cur in popped
    requires forall i :: 0 <= i < |queue| ==> |word[cur]| <= |word[queue[i]]|
    requires t < |nodes| && |word[t]| <= |word[cur]|
    ensures Reached(t, popped, queue)
    decreases |word[t]|
  {
    if t != 0 {
      var p, b := ParentEdge(nodes, word, t);
      ShallowReached(nodes, word, popped, queue, cur, skip, p);
      ReachedFromParent(nodes, word, popped, queue, cur, skip, p, b);
    }
  }

  lemma ReachedFromParent(nodes: seq<Node>, word: seq<Str>, popped: set<nat>, queue: seq<nat>,
                          cur: nat, skip: set<Byte>, p: nat, b: Byte)
    requires |nodes| == |word|
    requires Frontier(nodes, popped, queue, cur, skip)
    requires p < |nodes| && b in nodes[p].next
    requires cur < |nodes| && |word[p]| < |word[cur]|
    requires forall i :: 0 <= i < |queue| ==> queue[i] < |word| && |word[cur]| <= |word[queue[i]]|
    requires Reached(p, popped, queue)
    ensures Reached(nodes[p].next[b], popped, queue)
  {
  }

  // With nothing queued, every node has been reached.
  lemma {:induction false} AllReached(nodes: seq<Node>, word: seq<Str>, popped: set<nat>, cur: nat, t: nat)
    requires Trie(nodes, word)
    requires 0 in popped
    requires Frontier(nodes, popped, [], cur, {})
    requires t < |nodes|
    ensures t in popped
    decreases |word[t]|
  {
    if t != 0 {
      var p, b := ParentEdge(nodes, word, t);
      AllReached(nodes, word, popped, cur, p);
      assert Reached(nodes[p].next[b], popped, []);
    }
  }

  // Reached nodes are finished, the others still hold their own outputs only.
  ghost predicate Linked(nodes: seq<Node>, word: seq<Str>, patterns: seq<Str>, popped: set<nat>, queue: seq<nat>)
    requires |nodes| == |word|
  {
    forall s {:trigger nodes[s]} :: 0 <= s < |nodes| ==>
      if Reached(s, popped, queue)
      then FailOk(nodes, word, s) && FullOut(nodes[s].outLen, word[s], patterns)
      else OwnOut(nodes[s].outLen, word[s], patterns)
  }

  // Everything the breadth-first pass keeps while it visits the edges `skip` of `cur`.
  ghost predicate Progress(nodes: seq<Node>, word: seq<Str>, patterns: seq<Str>, popped: set<nat>, queue: seq<nat>,
                           cur: nat, skip: set<Byte>)
  {
    && Trie(nodes, word)
    && Spells(word, patterns)
    && Order(nodes, word, popped, queue)
    && Frontier(nodes, popped, queue, cur, skip)
    && Linked(nodes, word, patterns, popped, queue)
    && cur in popped
    && Near(word, queue, cur)
  }

  // The queue holds nodes as deep as `cur` or one deeper.
  ghost predicate Near(word: seq<Str>, queue: seq<nat>, cur: nat)
    requires cur < |word|
  {
    forall i :: 0 <= i < |queue| ==> queue[i] < |word| && |word[cur]| <= |word[queue[i]]| <= |word[cur]| + 1
  }

  lemma SameEdges(nodes: seq<Node>, nodes': seq<Node>, word: seq<Str>)
    requires Trie(nodes, word)
    requires |nodes'| == |nodes|
    requires forall s :: 0 <= s < |nodes| ==> nodes'[s].next == nodes[s].next
    ensures Trie(nodes', word)
  {
  }

  ghost function AllBelow(n: nat): (r: set<nat>)
    ensures forall s: nat :: s in r <==> s < n
  {
    if n == 0 then {} else AllBelow(n - 1) + {n - 1}
  }

  // Taking a node off the queue opens all of its edges.
  lemma Pops(nodes: seq<Node>, word: seq<Str>, patterns: seq<Str>, popped: set<nat>, queue: seq<nat>, last: nat)
    requires Progress(nodes, word, patterns, popped, queue, last, {})
    requires queue != []
    ensures Progress(nodes, word, patterns, popped + {queue[0]}, queue[1..], queue[0], nodes[queue[0]].next.Keys)
  {
    PopKeepsReached(popped, queue);
    PopsOrder(nodes, word, popped, queue);
    PopsFrontier(nodes, popped, queue, last);
    PopsLinked(nodes, word, patterns, popped, queue);
  }

  lemma PopKeepsReached(popped: set<nat>, queue: seq<nat>)
    requires queue != []
    ensures forall t :: Reached(t, popped + {queue[0]}, queue[1..]) <==> Reached(t, popped, queue)
  {
    assert queue == [queue[0]] + queue[1..];
  }

  lemma PopsOrder(nodes: seq<Node>, word: seq<Str>, popped: set<nat>, queue: seq<nat>)
    requires |nodes| == |word|
    requires Order(nodes, word, popped, queue)
    requires queue != []
    ensures Order(nodes, word, popped + {queue[0]}, queue[1..])
  {
  }

  lemma PopsFrontier(nodes: seq<Node>, popped: set<nat>, queue: seq<nat>, last: nat)
    requires queue != [] && queue[0] < |nodes|
    requires Frontier(nodes, popped, queue, last, {})
    requires queue[0] !in popped
    requires forall t :: Reached(t, popped + {queue[0]}, queue[1..]) <==> Reached(t, popped, queue)
    ensures Frontier(nodes, popped + {queue[0]}, queue[1..], queue[0], nodes[queue[0]].next.Keys)
  {
  }

  lemma PopsLinked(nodes: seq<Node>, word: seq<Str>, patterns: seq<Str>, popped: set<nat>, queue: seq<nat>)
    requires |nodes| == |word|
    requires queue != []
    requires Linked(nodes, word, patterns, popped, queue)
    requires forall t :: Reached(t, popped + {queue[0]}, queue[1..]) <==> Reached(t, popped, queue)
    ensures Linked(nodes, word, patterns, popped + {queue[0]}, queue[1..])
  {
  }

  // Giving the child along one edge its link and its outputs, and queueing it.
  lemma Links(nodes: seq<Node>, word: seq<Str>, patterns: seq<Str>, popped: set<nat>, queue: seq<nat>,
              cur: nat, skip: set<Byte>, b: Byte, child: nat, fail: nat, nodes': seq<Node>)
    requires Progress(nodes, word, patterns, popped, queue, cur, skip)
    requires b in skip && b in nodes[cur].next && child == nodes[cur].next[b]
    requires fail < |nodes| && LongestProper(word[fail], word[child], word)
    requires FullOut(nodes[fail].outLen, word[fail], patterns)
    requires nodes' == nodes[child := Node(nodes[child].next, fail, nodes[child].outLen + nodes[fail].outLen)]
    ensures Progress(nodes', word, patterns, popped, queue + [child], cur, skip - {b})
  {
    assert !Reached(child, popped, queue) by {
      assert !Reached(nodes[cur].next[b], popped, queue);
    }
    EdgeSpells(nodes, word, cur, b);
    SameEdges(nodes, nodes', word);
    LinksOrder(nodes, word, popped, queue, cur, child, nodes');
    ChildReached(nodes, word, popped, queue, cur, skip, b, child, nodes');
    LinksLinked(nodes, word, patterns, popped, queue, child, fail, nodes');
  }

  lemma LinksOrder(nodes: seq<Node>, word: seq<Str>, popped: set<nat>, queue: seq<nat>, cur: nat, child: nat,
                   nodes': seq<Node>)
    requires |nodes| == |word| == |nodes'|
    requires Order(nodes, word, popped, queue)
    requires 0 < child < |nodes| && cur < |nodes| && |word[child]| == |word[cur]| + 1
    requires !Reached(child, popped, queue)
    requires Near(word, queue, cur)
    ensures Order(nodes', word, popped, queue + [child])
    ensures Near(word, queue + [child], cur)
  {
  }

  lemma LinksLinked(nodes: seq<Node>, word: seq<Str>, patterns: seq<Str>, popped: set<nat>, queue: seq<nat>,
                    child: nat, fail: nat, nodes': seq<Node>)
    requires |nodes| == |word|
    requires Linked(nodes, word, patterns, popped, queue)
    requires 0 < child < |nodes| && !Reached(child, popped, queue)
    requires word[child] != [] && forall p :: p in patterns ==> p in word
    requires fail < |nodes| && LongestProper(word[fail], word[child], word)
    requires FullOut(nodes[fail].outLen, word[fail], patterns)
    requires nodes' == nodes[child := Node(nodes[child].next, fail, nodes[child].outLen + nodes[fail].outLen)]
    ensures Linked(nodes', word, patterns, popped, queue + [child])
  {
    assert OwnOut(nodes[child].outLen, word[child], patterns);
    OutFlattens(nodes[child].outLen, nodes[fail].outLen, word[child], word[fail], word, patterns);
    forall s {:trigger nodes'[s]} | 0 <= s < |nodes'|
      ensures if Reached(s, popped, queue + [child])
              then FailOk(nodes', word, s) && FullOut(nodes'[s].outLen, word[s], patterns)
              else OwnOut(nodes'[s].outLen, word[s], patterns)
    {
      if s != child {
        assert nodes'[s] == nodes[s];
        assert Reached(s, popped, queue + [child]) <==> Reached(s, popped, queue);
      }
    }
  }

  lemma ChildReached(nodes: seq<Node>, word: seq<Str>, popped: set<nat>, queue: seq<nat>,
                     cur: nat, skip: set<Byte>, b: Byte, child: nat, nodes': seq<Node>)
    requires Trie(nodes, word)
    requires Frontier(nodes, popped, queue, cur, skip)
    requires cur in popped
    requires cur < |nodes| && b in nodes[cur].next
    requires b in skip
    requires child == nodes[cur].next[b]
    requires |nodes'| == |nodes|
    requires forall s :: 0 <= s < |nodes| ==> nodes'[s].next == nodes[s].next
    ensures Frontier(nodes', popped, queue + [child], cur, skip - {b})
  {
    forall s, c {:trigger nodes'[s].next[c]} | 0 <= s < |nodes'| && c in nodes'[s].next
      ensures Reached(nodes'[s].next[c], popped, queue + [child]) <==> s in popped && !(s == cur && c in skip - {b})
    {
      assert Reached(nodes[s].next[c], popped, queue) <==> s in popped && !(s == cur && c in skip);
      if nodes[s].next[c] == child {
        assert word[s] + [c] == word[cur] + [b];
        assert (word[s] + [c])[..|word[s]|] == word[s];
        assert (word[cur] + [b])[..|word[cur]|] == word[cur];
        assert (word[s] + [c])[|word[s]|] == c;
        assert SameWord(word, s, cur);
        assert s == cur && c == b;
      }
    }
  }

  // ---------------------------------------------------------------- what a scan reports

  // How often the pattern standing at `m` in `text` was given; 0 when none stands there.
  ghost function Occurrences(m: Match, text: Str, patterns: seq<Str>): nat {
    if 0 <= m.start < m.end <= |text| then Count(text[m.start..m.end], patterns) else 0
  }

  // By end, and at one end the longest first.
  ghost predicate ScanOrder(out: seq<Match>) {
    forall i, j :: 0 <= i < j < |out| ==>
      out[i].end < out[j].end || (out[i].end == out[j].end && out[i].start <= out[j].start)
  }

  // The matches a node's outputs stand for when `end` bytes have been read.
  ghost function MatchesAt(end: int, lens: seq<int>): (r: seq<Match>)
    ensures |r| == |lens|
  {
    if lens == [] then []
    else MatchesAt(end, lens[..|lens| - 1]) + [Match(end - lens[|lens| - 1], end)]
  }

  lemma {:induction false} MatchesAtIndex(end: int, lens: seq<int>, i: nat)
    requires i < |lens|
    ensures MatchesAt(end, lens)[i] == Match(end - lens[i], end)
  {
    if i < |lens| - 1 {
      MatchesAtIndex(end, lens[..|lens| - 1], i);
    }
  }

  lemma {:induction false} MatchesAtCount(end: int, lens: seq<int>, m: Match)
    ensures Count(m, MatchesAt(end, lens)) == if m.end == end then Count(end - m.start, lens) else 0
  {
    if lens != [] {
      var init, last := lens[..|lens| - 1], lens[|lens| - 1];
      MatchesAtCount(end, init, m);
      CountSnoc(lens, init, last, end - m.start);
      CountSnoc(MatchesAt(end, lens), MatchesAt(end, init), Match(end - last, end), m);
    }
  }

  // What ends the state's word is exactly what ends the text read so far.
  lemma StateReports(word: seq<Str>, w: Str, t: Str, patterns: seq<Str>, l: int)
    requires Spells(word, patterns)
    requires Longest(w, t, word)
    ensures Ending(w, l, patterns) == Ending(t, l, patterns)
  {
    if 1 <= l <= |t| {
      var u := t[|t| - l..];
      assert Suffix(u, t);
      if l <= |w| {
        assert w[|w| - l..] == u;
      } else {
        assert u !in word;
        assert u !in patterns;
      }
    }
  }

  // `out` is everything that ends within the first `i` bytes.
  ghost predicate Scanned(out: seq<Match>, text: Str, i: nat, patterns: seq<Str>) {
    && (forall m: Match :: Count(m, out) == if m.end <= i then Occurrences(m, text, patterns) else 0)
    && ScanOrder(out)
  }

  lemma ScanCounts(word: seq<Str>, w: Str, text: Str, i: nat, patterns: seq<Str>, lens: seq<int>, m: Match)
    requires Spells(word, patterns)
    requires i < |text| && Longest(w, text[..i + 1], word)
    requires FullOut(lens, w, patterns)
    ensures Count(m, MatchesAt(i + 1, lens)) == if m.end == i + 1 then Occurrences(m, text, patterns) else 0
  {
    MatchesAtCount(i + 1, lens, m);
    if m.end == i + 1 {
      var l := i + 1 - m.start;
      StateReports(word, w, text[..i + 1], patterns, l);
      if 1 <= l <= i + 1 {
        assert text[..i + 1][i + 1 - l..] == text[m.start..m.end];
      }
    }
  }

  lemma ScanAdvances(word: seq<Str>, w: Str, text: Str, i: nat, patterns: seq<Str>, lens: seq<int>, out: seq<Match>)
    requires Spells(word, patterns)
    requires i < |text| && Longest(w, text[..i + 1], word)
    requires FullOut(lens, w, patterns)
    requires Scanned(out, text, i, patterns)
    ensures Scanned(out + MatchesAt(i + 1, lens), text, i + 1, patterns)
  {
    var more := MatchesAt(i + 1, lens);
    forall m: Match
      ensures Count(m, out + more) == if m.end <= i + 1 then Occurrences(m, text, patterns) else 0
    {
      ScanCounts(word, w, text, i, patterns, lens, m);
    }
    EndsBefore(out, text, i, patterns);
    MatchesEndThere(i + 1, lens);
    ScanOrderJoins(out, more, i);
  }

  lemma MatchesEndThere(end: int, lens: seq<int>)
    requires forall i, j :: 0 <= i < j < |lens| ==> lens[i] >= lens[j]
    ensures ScanOrder(MatchesAt(end, lens))
    ensures forall k :: 0 <= k < |MatchesAt(end, lens)| ==> MatchesAt(end, lens)[k].end == end
  {
    var more := MatchesAt(end, lens);
    forall k | 0 <= k < |lens|
      ensures MatchesAt(end, lens)[k] == Match(end - lens[k], end)
    {
      MatchesAtIndex(end, lens, k);
    }
  }

  lemma EndsBefore(out: seq<Match>, text: Str, i: nat, patterns: seq<Str>)
    requires Scanned(out, text, i, patterns)
    ensures forall k :: 0 <= k < |out| ==> out[k].end <= i
  {
    forall k | 0 <= k < |out|
      ensures out[k].end <= i
    {
      assert Count(out[k], out) > 0;
    }
  }

  lemma ScanOrderJoins(out: seq<Match>, more: seq<Match>, i: nat)
    requires ScanOrder(out) && forall k :: 0 <= k < |out| ==> out[k].end <= i
    requires ScanOrder(more) && forall k :: 0 <= k < |more| ==> more[k].end == i + 1
    ensures ScanOrder(out + more)
  {
  }

  // ---------------------------------------------------------------- growing the trie

  // A trie of the patterns without failure links.
  ghost predicate Bare(nodes: seq<Node>, word: seq<Str>, patterns: seq<Str>) {
    && Trie(nodes, word)
    && Spells(word, patterns)
    && nodes[0].fail == 0
    && forall s :: 0 <= s < |nodes| ==> OwnOut(nodes[s].outLen, word[s], patterns)
  }

  // The trie while the first `i` bytes of `p` are in it.
  ghost predicate Growing(nodes: seq<Node>, word: seq<Str>, patterns: seq<Str>, p: Str, i: nat)
    requires i <= |p|
  {
    && Trie(nodes, word)
    && (forall q :: q in patterns ==> q in word)
    && (forall w {:trigger BeginsOne(w, patterns)} :: w in word && w != [] ==> w <= p[..i] || BeginsOne(w, patterns))
    && nodes[0].fail == 0
    && (forall s :: 0 <= s < |nodes| ==> OwnOut(nodes[s].outLen, word[s], patterns))
  }

  // Adding the node for the next byte of `p` below `cur`.
  lemma Grows(nodes: seq<Node>, word: seq<Str>, patterns: seq<Str>, p: Str, i: nat, cur: nat,
              nodes': seq<Node>, word': seq<Str>)
    requires i < |p| && Growing(nodes, word, patterns, p, i)
    requires cur < |nodes| && word[cur] == p[..i]
    requires p[i] !in nodes[cur].next
    requires nodes' == nodes[cur := nodes[cur].(next := nodes[cur].next[p[i] := |nodes|])] + [Node(map[], 0, [])]
    requires word' == word + [word[cur] + [p[i]]]
    ensures Growing(nodes', word', patterns, p, i + 1)
  {
    TakeSnoc(p, i);
    GrowsTrie(nodes, word, p[i], cur, nodes', word');
    GrowsWords(word, patterns, p, i, word');
    GrowsOuts(nodes, word, patterns, nodes', word');
  }

  lemma GrowsTrie(nodes: seq<Node>, word: seq<Str>, b: Byte, cur: nat, nodes': seq<Node>, word': seq<Str>)
    requires Trie(nodes, word)
    requires cur < |nodes| && b !in nodes[cur].next
    requires nodes' == nodes[cur := nodes[cur].(next := nodes[cur].next[b := |nodes|])] + [Node(map[], 0, [])]
    requires word' == word + [word[cur] + [b]]
    ensures Trie(nodes', word')
  {
    var w := word[cur] + [b];
    assert w !in word;
    forall t {:trigger HasParent(word', t)} | 0 < t < |word'|
      ensures HasParent(word', t)
    {
      if t == |word| {
        assert word'[cur] == word'[t][..|word'[t]| - 1];
      } else {
        assert HasParent(word, t);
        var p: nat :| p < |word| && word[p] == word[t][..|word[t]| - 1];
        assert word'[p] == word'[t][..|word'[t]| - 1];
      }
    }
    forall s, t {:trigger SameWord(word', s, t)} | 0 <= s < |word'| && 0 <= t < |word'| && SameWord(word', s, t)
      ensures s == t
    {
      if s < |word| && t < |word| {
        assert SameWord(word, s, t);
      }
    }
    forall s, c: Byte {:trigger word'[s] + [c]} | 0 <= s < |nodes'| && word'[s] + [c] in word'
      ensures c in nodes'[s].next
    {
      NewEdges(nodes, word, b, cur, s, c);
    }
  }

  lemma NewEdges(nodes: seq<Node>, word: seq<Str>, b: Byte, cur: nat, s: nat, c: Byte)
    requires Trie(nodes, word)
    requires cur < |nodes| && b !in nodes[cur].next
    requires s <= |nodes|
    requires (word + [word[cur] + [b]])[s] + [c] in word + [word[cur] + [b]]
    ensures s < |nodes|
    ensures c in nodes[s].next || (s == cur && c == b)
  {
    var w := word[cur] + [b];
    assert |w + [c]| != |w| && w !in word;
    if w + [c] in word {
      ParentIsWord(nodes, word, w, c);
      assert false;
    }
    if s == |nodes| {
      assert false;
    } else if word[s] + [c] !in word {
      assert word[s] + [c] == word[cur] + [b];
      assert word[s] == (word[s] + [c])[..|word[s]|] == (word[cur] + [b])[..|word[cur]|] == word[cur];
      assert (word[s] + [c])[|word[s]|] == c;
      assert SameWord(word, s, cur);
    }
  }

  lemma GrowsWords(word: seq<Str>, patterns: seq<Str>, p: Str, i: nat, word': seq<Str>)
    requires i < |p|
    requires forall q :: q in patterns ==> q in word
    requires forall w {:trigger BeginsOne(w, patterns)} :: w in word && w != [] ==> w <= p[..i] || BeginsOne(w, patterns)
    requires word' == word + [p[..i + 1]]
    ensures forall q :: q in patterns ==> q in word'
    ensures forall w {:trigger BeginsOne(w, patterns)} ::
              w in word' && w != [] ==> w <= p[..i + 1] || BeginsOne(w, patterns)
  {
    forall w | w in word' && w != []
      ensures w <= p[..i + 1] || BeginsOne(w, patterns)
    {
      if w != p[..i + 1] {
        assert w in word;
        if w <= p[..i] {
          assert p[..i + 1][..i] == p[..i];
        }
      }
    }
  }

  lemma GrowsOuts(nodes: seq<Node>, word: seq<Str>, patterns: seq<Str>, nodes': seq<Node>, word': seq<Str>)
    requires |nodes| == |word| && |nodes'| == |word'| == |word| + 1
    requires word' == word + [word'[|word|]]
    requires word'[|word|] !in word
    requires forall q :: q in patterns ==> q in word
    requires forall s :: 0 <= s < |nodes| ==> OwnOut(nodes[s].outLen, word[s], patterns)
    requires forall s :: 0 <= s < |nodes| ==> nodes'[s].outLen == nodes[s].outLen
    requires nodes'[|nodes|].outLen == []
    ensures forall s :: 0 <= s < |nodes'| ==> OwnOut(nodes'[s].outLen, word'[s], patterns)
  {
    assert word'[|word|] !in patterns;
  }

  // Recording the pattern at the node it ends in.
  lemma Planting(nodes: seq<Node>, word: seq<Str>, patterns: seq<Str>, p: Str, cur: nat, nodes': seq<Node>)
    requires p != [] && Growing(nodes, word, patterns, p, |p|)
    requires cur < |nodes| && word[cur] == p
    requires nodes' == nodes[cur := nodes[cur].(outLen := nodes[cur].outLen + [|p|])]
    ensures Bare(nodes', word, patterns + [p])
  {
    assert p[..|p|] == p;
    SameEdges(nodes, nodes', word);
    PlantingSpells(word, patterns, p);
    PlantingOuts(nodes, word, patterns, p, cur, nodes');
  }

  lemma PlantingSpells(word: seq<Str>, patterns: seq<Str>, p: Str)
    requires p in word && forall q :: q in patterns ==> q in word
    requires forall w {:trigger BeginsOne(w, patterns)} :: w in word && w != [] ==> w <= p || BeginsOne(w, patterns)
    ensures Spells(word, patterns + [p])
  {
    forall w | w in word && w != []
      ensures BeginsOne(w, patterns + [p])
    {
      if w <= p {
        assert p in patterns + [p];
      } else {
        assert BeginsOne(w, patterns);
        var q :| q in patterns && w <= q;
        assert q in patterns + [p];
      }
    }
  }

  lemma PlantingOuts(nodes: seq<Node>, word: seq<Str>, patterns: seq<Str>, p: Str, cur: nat, nodes': seq<Node>)
    requires |nodes| == |word| && cur < |nodes| && word[cur] == p != []
    requires Trie(nodes, word)
    requires forall s :: 0 <= s < |nodes| ==> OwnOut(nodes[s].outLen, word[s], patterns)
    requires nodes' == nodes[cur := nodes[cur].(outLen := nodes[cur].outLen + [|p|])]
    ensures forall s :: 0 <= s < |nodes'| ==> OwnOut(nodes'[s].outLen, word[s], patterns + [p])
  {
    forall s | 0 <= s < |nodes'|
      ensures OwnOut(nodes'[s].outLen, word[s], patterns + [p])
    {
      CountSnoc(patterns + [p], patterns, p, word[s]);
      assert OwnOut(nodes[s].outLen, word[s], patterns);
      assert SameWord(word, s, cur) <==> word[s] == p;
    }
  }

  // An empty pattern changes nothing.
  lemma PlantingNothing(nodes: seq<Node>, word: seq<Str>, patterns: seq<Str>)
    requires Bare(nodes, word, patterns)
    ensures Bare(nodes, word, patterns + [[]])
  {
    forall s | 0 <= s < |nodes|
      ensures OwnOut(nodes[s].outLen, word[s], patterns + [[]])
    {
      CountSnoc(patterns + [[]], patterns, [], word[s]);
      assert OwnOut(nodes[s].outLen, word[s], patterns);
    }
    assert [] in word;
    forall w | w in word && w != []
      ensures BeginsOne(w, patterns + [[]])
    {
      assert BeginsOne(w, patterns);
      var q :| q in patterns && w <= q;
      assert q in patterns + [[]];
    }
  }

  // ---------------------------------------------------------------- the breadth-first pass

  lemma Starts(nodes: seq<Node>, word: seq<Str>, patterns: seq<Str>)
    requires Bare(nodes, word, patterns)
    ensures nodes[0].outLen == []
    ensures Progress(nodes, word, patterns, {0}, [], 0, nodes[0].next.Keys)
  {
    assert OwnOut(nodes[0].outLen, word[0], patterns);
    assert FullOut([], [], patterns);
  }

  lemma FirstLinks(nodes: seq<Node>, word: seq<Str>, patterns: seq<Str>, queue: seq<nat>, todo: set<Byte>, b: Byte)
    requires Progress(nodes, word, patterns, {0}, queue, 0, todo)
    requires nodes[0].outLen == []
    requires b in todo && b in nodes[0].next
    ensures 0 < nodes[0].next[b] < |nodes|
    ensures Progress(nodes[nodes[0].next[b] := nodes[nodes[0].next[b]].(fail := 0)], word, patterns, {0},
                     queue + [nodes[0].next[b]], 0, todo - {b})
  {
    var child := nodes[0].next[b];
    EdgeSpells(nodes, word, 0, b);
    RootOutputs(nodes, word, patterns, {0}, queue);
    assert LongestProper(word[0], word[child], word);
    assert nodes[child].outLen + nodes[0].outLen == nodes[child].outLen;
    Links(nodes, word, patterns, {0}, queue, 0, todo, b, child, 0, nodes[child := nodes[child].(fail := 0)]);
  }

  lemma RootOutputs(nodes: seq<Node>, word: seq<Str>, patterns: seq<Str>, popped: set<nat>, queue: seq<nat>)
    requires |nodes| == |word| > 0
    requires Linked(nodes, word, patterns, popped, queue)
    requires 0 in popped
    ensures FullOut(nodes[0].outLen, word[0], patterns)
  {
    assert Reached(0, popped, queue);
  }

  lemma Finishes(nodes: seq<Node>, word: seq<Str>, patterns: seq<Str>, popped: set<nat>, last: nat)
    requires Progress(nodes, word, patterns, popped, [], last, {})
    ensures Automaton(nodes, word, patterns)
  {
    forall s: nat | s < |nodes|
      ensures FailOk(nodes, word, s) && FullOut(nodes[s].outLen, word[s], patterns)
    {
      AllReached(nodes, word, popped, last, s);
      ReachedIsLinked(nodes, word, patterns, popped, [], s);
    }
  }

  lemma ReachedIsLinked(nodes: seq<Node>, word: seq<Str>, patterns: seq<Str>, popped: set<nat>, queue: seq<nat>, s: nat)
    requires |nodes| == |word|
    requires Linked(nodes, word, patterns, popped, queue)
    requires s < |nodes| && Reached(s, popped, queue)
    ensures FailOk(nodes, word, s) && FullOut(nodes[s].outLen, word[s], patterns)
  {
  }

  lemma PoppedIsNew(nodes: seq<Node>, word: seq<Str>, popped: set<nat>, queue: seq<nat>)
    requires |nodes| == |word|
    requires Order(nodes, word, popped, queue)
    requires queue != []
    ensures 0 < queue[0] < |nodes|
    ensures AllBelow(|nodes|) - (popped + {queue[0]}) < AllBelow(|nodes|) - popped
  {
    assert queue[0] in AllBelow(|nodes|) - popped;
  }

  // A node no deeper than the one being processed is finished.
  lemma ShallowIsLinked(nodes: seq<Node>, word: seq<Str>, patterns: seq<Str>, popped: set<nat>, queue: seq<nat>,
                        cur: nat, skip: set<Byte>, t: nat)
    requires Progress(nodes, word, patterns, popped, queue, cur, skip)
    requires t < |nodes| && |word[t]| <= |word[cur]|
    ensures FailOk(nodes, word, t) && FullOut(nodes[t].outLen, word[t], patterns)
  {
    ShallowReached(nodes, word, popped, queue, cur, skip, t);
    ReachedIsLinked(nodes, word, patterns, popped, queue, t);
  }

  // ---------------------------------------------------------------- what the links cost

  // The length of the word a node fails to.
  ghost function FailDepth(nodes: seq<Node>, word: seq<Str>, s: nat): nat
    requires s < |nodes|
  {
    if nodes[s].fail < |word| then |word[nodes[s].fail]| else 0
  }

  // `cost[s]` is how many failure links were followed to find the link of `s`: along an
  // edge, the links followed are paid for by the depth of the parent's failure node.
  ghost predicate Paid(nodes: seq<Node>, word: seq<Str>, cost: seq<nat>, popped: set<nat>, queue: seq<nat>) {
    && |cost| == |nodes| == |word| > 0
    && cost[0] == 0 && nodes[0].fail == 0 && word[0] == []
    && (forall s {:trigger cost[s]} :: 0 <= s < |cost| && !Reached(s, popped, queue) ==> cost[s] == 0)
    && forall s, b {:trigger nodes[s].next[b]} :: 0 <= s < |nodes| && b in nodes[s].next ==>
         EdgePaid(nodes, word, cost, s, nodes[s].next[b], popped, queue)
  }

  ghost predicate EdgePaid(nodes: seq<Node>, word: seq<Str>, cost: seq<nat>, s: nat, t: nat, popped: set<nat>,
                           queue: seq<nat>)
    requires s < |nodes| == |cost|
  {
    t < |nodes| && (Reached(t, popped, queue) ==> cost[t] + FailDepth(nodes, word, t) <= FailDepth(nodes, word, s) + 1)
  }

  // The links followed for the nodes of `on`.
  ghost function Hops(cost: seq<nat>, on: set<nat>): nat {
    if cost == [] then 0
    else Hops(cost[..|cost| - 1], on) + if |cost| - 1 in on then cost[|cost| - 1] else 0
  }

  // The links followed for all nodes.
  ghost function TotalHops(cost: seq<nat>): nat {
    Hops(cost, AllBelow(|cost|))
  }

  ghost function TotalLength(patterns: seq<Str>): nat {
    if patterns == [] then 0 else TotalLength(patterns[..|patterns| - 1]) + |patterns[|patterns| - 1]|
  }

  lemma {:induction false} HopsUpdate(cost: seq<nat>, on: set<nat>, t: nat, h: nat)
    requires t < |cost| && cost[t] == 0
    ensures Hops(cost[t := h], on) == Hops(cost, on) + if t in on then h else 0
  {
    var n := |cost| - 1;
    if t == n {
      assert cost[t := h][..n] == cost[..n];
    } else {
      HopsUpdate(cost[..n], on, t, h);
      assert cost[t := h][..n] == cost[..n][t := h];
    }
  }

  lemma {:induction false} HopsCovered(cost: seq<nat>, on: set<nat>, a: set<nat>, b: set<nat>)
    requires forall s :: s in on && s < |cost| && cost[s] != 0 ==> s in a || s in b
    ensures Hops(cost, on) <= Hops(cost, a) + Hops(cost, b)
  {
    if cost != [] {
      var n := |cost| - 1;
      assert forall s :: 0 <= s < n ==> cost[..n][s] == cost[s];
      HopsCovered(cost[..n], on, a, b);
    }
  }

  lemma {:induction false} HopsOfOne(cost: seq<nat>, t: nat)
    requires t < |cost|
    ensures Hops(cost, {t}) == cost[t]
  {
    var n := |cost| - 1;
    if t < n {
      HopsOfOne(cost[..n], t);
    } else {
      NoHops(cost[..n], {t});
    }
  }

  lemma {:induction false} NoHops(cost: seq<nat>, on: set<nat>)
    requires forall s :: s in on && s < |cost| ==> cost[s] == 0
    ensures Hops(cost, on) == 0
  {
    if cost != [] {
      var n := |cost| - 1;
      assert forall s :: 0 <= s < n ==> cost[..n][s] == cost[s];
      NoHops(cost[..n], on);
    }
  }

  // The nodes on the path that spells `w`.
  ghost function Path(word: seq<Str>, w: Str): set<nat> {
    set s: nat | s < |word| && word[s] <= w
  }

  // Along the path to a node, the links followed and the depth failed to sum to no more
  // than the node's own depth.
  lemma {:induction false} PathPaid(nodes: seq<Node>, word: seq<Str>, cost: seq<nat>, popped: set<nat>, t: nat)
    requires Trie(nodes, word) && Paid(nodes, word, cost, popped, [])
    requires forall s: nat :: s < |nodes| ==> s in popped
    requires t < |nodes|
    ensures Hops(cost, Path(word, word[t])) + FailDepth(nodes, word, t) <= |word[t]|
    decreases |word[t]|
  {
    if t == 0 {
      forall s | s in Path(word, word[0])
        ensures s == 0
      {
        assert SameWord(word, s, 0);
      }
      NoHops(cost, Path(word, word[0]));
    } else {
      var p, b := ParentEdge(nodes, word, t);
      PathPaid(nodes, word, cost, popped, p);
      forall s | s in Path(word, word[t])
        ensures s in Path(word, word[p]) || s == t
      {
        if |word[s]| == |word[t]| {
          assert SameWord(word, s, t);
        } else {
          assert word[s] <= word[p];
        }
      }
      HopsCovered(cost, Path(word, word[t]), Path(word, word[p]), {t});
      HopsOfOne(cost, t);
      assert EdgePaid(nodes, word, cost, p, nodes[p].next[b], popped, []);
      assert Reached(t, popped, []);
    }
  }

  // The nodes on the path of some pattern.
  ghost function Paths(word: seq<Str>, patterns: seq<Str>): set<nat> {
    set s: nat | s < |word| && BeginsOne(word[s], patterns)
  }

  lemma {:induction false} PathsPaid(nodes: seq<Node>, word: seq<Str>, cost: seq<nat>, popped: set<nat>,
                                      patterns: seq<Str>)
    requires Trie(nodes, word) && Paid(nodes, word, cost, popped, [])
    requires forall s: nat :: s < |nodes| ==> s in popped
    requires forall p :: p in patterns ==> p in word
    ensures Hops(cost, Paths(word, patterns)) <= TotalLength(patterns)
  {
    if patterns == [] {
      NoHops(cost, Paths(word, patterns));
    } else {
      var init, p := patterns[..|patterns| - 1], patterns[|patterns| - 1];
      PathsPaid(nodes, word, cost, popped, init);
      forall s | s in Paths(word, patterns)
        ensures s in Paths(word, init) || s in Path(word, p)
      {
        var q :| q in patterns && word[s] <= q;
        assert q in init || q == p;
      }
      HopsCovered(cost, Paths(word, patterns), Paths(word, init), Path(word, p));
      assert p in patterns && p in word;
      var t: nat :| t < |word| && word[t] == p;
      PathPaid(nodes, word, cost, popped, t);
    }
  }

  // All the links followed while building are paid for by the patterns' bytes.
  lemma BuildPaid(nodes: seq<Node>, word: seq<Str>, patterns: seq<Str>, cost: seq<nat>, popped: set<nat>, last: nat)
    requires Progress(nodes, word, patterns, popped, [], last, {})
    requires Paid(nodes, word, cost, popped, [])
    ensures TotalHops(cost) <= TotalLength(patterns)
  {
    forall s: nat | s < |nodes|
      ensures s in popped
    {
      AllReached(nodes, word, popped, last, s);
    }
    PathsPaid(nodes, word, cost, popped, patterns);
    forall s | s in AllBelow(|cost|) && cost[s] != 0
      ensures s in Paths(word, patterns)
    {
      assert HasParent(word, s);
      assert word[s] in word;
    }
    NoHops(cost, {});
    HopsCovered(cost, AllBelow(|cost|), Paths(word, patterns), {});
  }

  // The root's children fail to the root without a search.
  lemma FirstPaid(nodes: seq<Node>, word: seq<Str>, patterns: seq<Str>, cost: seq<nat>, queue: seq<nat>,
                  todo: set<Byte>, b: Byte)
    requires Progress(nodes, word, patterns, {0}, queue, 0, todo)
    requires Paid(nodes, word, cost, {0}, queue)
    requires nodes[0].outLen == []
    requires b in todo && b in nodes[0].next
    ensures Paid(nodes[nodes[0].next[b] := nodes[nodes[0].next[b]].(fail := 0)], word, cost[nodes[0].next[b] := 0], {0},
                 queue + [nodes[0].next[b]])
    ensures TotalHops(cost[nodes[0].next[b] := 0]) == TotalHops(cost)
  {
    var child := nodes[0].next[b];
    assert nodes[child].outLen + nodes[0].outLen == nodes[child].outLen;
    LinksPaid(nodes, word, cost, {0}, queue, 0, todo, b, child, 0, 0, nodes[child := nodes[child].(fail := 0)]);
  }

  lemma StartsPaid(nodes: seq<Node>, word: seq<Str>, patterns: seq<Str>, cost: seq<nat>)
    requires Bare(nodes, word, patterns)
    requires cost == seq(|nodes|, _ => 0)
    ensures Paid(nodes, word, cost, {0}, []) && TotalHops(cost) == 0
  {
    NoHops(cost, AllBelow(|cost|));
  }

  lemma PopsPaid(nodes: seq<Node>, word: seq<Str>, cost: seq<nat>, popped: set<nat>, queue: seq<nat>)
    requires queue != []
    requires Paid(nodes, word, cost, popped, queue)
    ensures Paid(nodes, word, cost, popped + {queue[0]}, queue[1..])
  {
    PopKeepsReached(popped, queue);
    forall s, b {:trigger nodes[s].next[b]} | 0 <= s < |nodes| && b in nodes[s].next
      ensures EdgePaid(nodes, word, cost, s, nodes[s].next[b], popped + {queue[0]}, queue[1..])
    {
      assert EdgePaid(nodes, word, cost, s, nodes[s].next[b], popped, queue);
    }
  }

  // Linking one child, whose link took `h` hops to find.
  lemma LinksPaid(nodes: seq<Node>, word: seq<Str>, cost: seq<nat>, popped: set<nat>, queue: seq<nat>,
                  cur: nat, skip: set<Byte>, b: Byte, child: nat, fail: nat, h: nat, nodes': seq<Node>)
    requires Trie(nodes, word)
    requires Frontier(nodes, popped, queue, cur, skip) && cur in popped && 0 in popped
    requires Paid(nodes, word, cost, popped, queue)
    requires cur < |nodes| && b in skip && b in nodes[cur].next && child == nodes[cur].next[b]
    requires fail < |nodes| && |word[fail]| + h <= FailDepth(nodes, word, cur) + 1
    requires nodes' == nodes[child := Node(nodes[child].next, fail, nodes[child].outLen + nodes[fail].outLen)]
    ensures Paid(nodes', word, cost[child := h], popped, queue + [child])
    ensures TotalHops(cost[child := h]) == TotalHops(cost) + h
  {
    assert !Reached(child, popped, queue) by {
      assert !Reached(nodes[cur].next[b], popped, queue);
    }
    assert Reached(0, popped, queue) && cost[child] == 0;
    HopsUpdate(cost, AllBelow(|cost|), child, h);
    forall s, c {:trigger nodes'[s].next[c]} | 0 <= s < |nodes'| && c in nodes'[s].next
      ensures EdgePaid(nodes', word, cost[child := h], s, nodes'[s].next[c], popped, queue + [child])
    {
      LinkPaid(nodes, word, cost, popped, queue, cur, skip, b, child, fail, h, nodes', s, c);
    }
    forall s | 0 <= s < |cost| && !Reached(s, popped, queue + [child])
      ensures cost[child := h][s] == 0
    {
      assert s != child && !Reached(s, popped, queue);
    }
  }

  lemma LinkPaid(nodes: seq<Node>, word: seq<Str>, cost: seq<nat>, popped: set<nat>, queue: seq<nat>,
                 cur: nat, skip: set<Byte>, b: Byte, child: nat, fail: nat, h: nat, nodes': seq<Node>, s: nat, c: Byte)
    requires Trie(nodes, word)
    requires Frontier(nodes, popped, queue, cur, skip) && cur in popped
    requires Paid(nodes, word, cost, popped, queue)
    requires cur < |nodes| && b in nodes[cur].next && child == nodes[cur].next[b]
    requires !Reached(child, popped, queue)
    requires fail < |nodes| && |word[fail]| + h <= FailDepth(nodes, word, cur) + 1
    requires nodes' == nodes[child := Node(nodes[child].next, fail, nodes[child].outLen + nodes[fail].outLen)]
    requires s < |nodes| && c in nodes[s].next
    ensures EdgePaid(nodes', word, cost[child := h], s, nodes[s].next[c], popped, queue + [child])
  {
    var t := nodes[s].next[c];
    assert EdgePaid(nodes, word, cost, s, t, popped, queue);
    EdgeSpells(nodes, word, s, c);
    EdgeSpells(nodes, word, cur, b);
    assert cur != child;
    if t == child {
      assert word[s] == word[t][..|word[t]| - 1] == word[cur];
      assert SameWord(word, s, cur);
    } else if Reached(t, popped, queue + [child]) {
      assert Reached(t, popped, queue);
      assert s in popped;
      assert s != child;
    }
  }

  // ---------------------------------------------------------------- the automaton

  class Matcher {
    var nodes: seq<Node>
    ghost var word: seq<Str>
    ghost var patterns: seq<Str>

    ghost predicate Valid()
      reads this
    {
      Automaton(nodes, word, patterns)
    }

    // The trie alone, before any failure link.
    ghost predicate Planted()
      reads this
    {
      Bare(nodes, word, patterns)
    }

    // buildAhoCorasick. An empty pattern is ignored.
    constructor (given: seq<Str>)
      ensures Valid()
      ensures patterns == given
    {
      nodes := [Node(map[], 0, [])];
      word := [[]];
      patterns := [];
      new;
      assert word[0] == [];
      for i := 0 to |given|
        invariant Planted()
        invariant patterns == given[..i]
      {
        Plant(given[i]);
        assert given[..i + 1] == given[..i] + [given[i]];
      }
      assert given[..|given|] == given;
      ghost var _ := BuildFailLinks();
    }

    method Plant(p: Str)
      requires Planted()
      modifies this
      ensures Planted()
      ensures patterns == old(patterns) + [p]
    {
      if p == [] {
        PlantingNothing(nodes, word, patterns);
        patterns := patterns + [p];
        return;
      }
      var cur: nat := 0;
      for i := 0 to |p|
        invariant Growing(nodes, word, patterns, p, i)
        invariant patterns == old(patterns)
        invariant cur < |nodes| == |word| && word[cur] == p[..i]
      {
        var b := p[i];
        TakeSnoc(p, i);
        if b !in nodes[cur].next {
          var added := |nodes|;
          var grown := nodes[cur := nodes[cur].(next := nodes[cur].next[b := added])] + [Node(map[], 0, [])];
          Grows(nodes, word, patterns, p, i, cur, grown, word + [word[cur] + [b]]);
          word := word + [word[cur] + [b]];
          nodes := grown;
        } else {
          EdgeSpells(nodes, word, cur, b);
        }
        cur := nodes[cur].next[b];
      }
      assert p[..|p|] == p;
      var planted := nodes[cur := nodes[cur].(outLen := nodes[cur].outLen + [|p|])];
      Planting(nodes, word, patterns, p, cur, planted);
      nodes := planted;
      patterns := patterns + [p];
    }

    // buildFailLinks: breadth-first, in whatever order a map yields its keys. However the
    // paths of the patterns interleave in the queue, the failure links followed are at
    // most the bytes of the patterns.
    method BuildFailLinks() returns (ghost hops: nat)
      requires Planted()
      modifies this
      ensures Valid()
      ensures patterns == old(patterns)
      ensures hops <= TotalLength(patterns)
    {
      var queue: seq<nat>;
      ghost var cost: seq<nat>;
      queue, cost := LinkRootEdges();
      hops := 0;
      ghost var popped: set<nat> := {0};
      ghost var last: nat := 0;
      while queue != []
        invariant Progress(nodes, word, patterns, popped, queue, last, {})
        invariant Paid(nodes, word, cost, popped, queue)
        invariant hops == TotalHops(cost)
        invariant patterns == old(patterns)
        decreases AllBelow(|nodes|) - popped
      {
        var cur := queue[0];
        Pops(nodes, word, patterns, popped, queue, last);
        PoppedIsNew(nodes, word, popped, queue);
        PopsPaid(nodes, word, cost, popped, queue);
        popped := popped + {cur};
        last := cur;
        ghost var h;
        queue, cost, h := LinkEdges(cur, queue[1..], popped, cost);
        hops := hops + h;
      }
      BuildPaid(nodes, word, patterns, cost, popped, last);
      Finishes(nodes, word, patterns, popped, last);
    }

    // The root's children fail to the root.
    method LinkRootEdges() returns (queue: seq<nat>, ghost cost: seq<nat>)
      requires Planted()
      modifies this
      ensures Paid(nodes, word, cost, {0}, queue) && TotalHops(cost) == 0
      ensures Progress(nodes, word, patterns, {0}, queue, 0, {})
      ensures patterns == old(patterns)
    {
      queue := [];
      cost := seq(|nodes|, _ => 0);
      Starts(nodes, word, patterns);
      StartsPaid(nodes, word, patterns, cost);
      var todo := nodes[0].next.Keys;
      while todo != {}
        invariant Progress(nodes, word, patterns, {0}, queue, 0, todo)
        invariant Paid(nodes, word, cost, {0}, queue) && TotalHops(cost) == 0
        invariant patterns == old(patterns)
        invariant 0 < |nodes| && nodes[0].outLen == []
        invariant todo <= nodes[0].next.Keys
      {
        var b :| b in todo;
        var child := nodes[0].next[b];
        FirstLinks(nodes, word, patterns, queue, todo, b);
        FirstPaid(nodes, word, patterns, cost, queue, todo, b);
        nodes := nodes[child := nodes[child].(fail := 0)];
        queue, cost := queue + [child], cost[child := 0];
        todo := todo - {b};
      }
    }

    // The inner loop: link and queue every child of `cur`, which has just been popped.
    method LinkEdges(cur: nat, waiting: seq<nat>, ghost popped: set<nat>, ghost before: seq<nat>)
        returns (queue: seq<nat>, ghost cost: seq<nat>, ghost hops: nat)
      requires 0 < cur < |nodes|
      requires Paid(nodes, word, before, popped, waiting)
      requires Progress(nodes, word, patterns, popped, waiting, cur, nodes[cur].next.Keys)
      modifies this
      ensures Progress(nodes, word, patterns, popped, queue, cur, {})
      ensures Paid(nodes, word, cost, popped, queue) && TotalHops(cost) == TotalHops(before) + hops
      ensures patterns == old(patterns) && |nodes| == old(|nodes|)
    {
      queue, cost, hops := waiting, before, 0;
      var todo := nodes[cur].next.Keys;
      while todo != {}
        invariant patterns == old(patterns) && |nodes| == old(|nodes|)
        invariant cur < |nodes|
        invariant Progress(nodes, word, patterns, popped, queue, cur, todo)
        invariant Paid(nodes, word, cost, popped, queue) && TotalHops(cost) == TotalHops(before) + hops
        invariant todo <= nodes[cur].next.Keys
      {
        var b :| b in todo;
        ghost var h;
        queue, cost, h := LinkEdge(cur, b, queue, popped, todo, cost);
        hops := hops + h;
        todo := todo - {b};
      }
    }

    method LinkEdge(cur: nat, b: Byte, waiting: seq<nat>, ghost popped: set<nat>, ghost todo: set<Byte>,
                    ghost before: seq<nat>)
        returns (queue: seq<nat>, ghost cost: seq<nat>, ghost hops: nat)
      requires Paid(nodes, word, before, popped, waiting)
      requires Progress(nodes, word, patterns, popped, waiting, cur, todo)
      requires 0 < cur < |nodes| && b in nodes[cur].next && b in todo
      modifies this
      ensures patterns == old(patterns) && |nodes| == old(|nodes|)
      ensures nodes[cur].next == old(nodes[cur].next)
      ensures queue == waiting + [nodes[cur].next[b]]
      ensures Progress(nodes, word, patterns, popped, queue, cur, todo - {b})
      ensures Paid(nodes, word, cost, popped, queue) && TotalHops(cost) == TotalHops(before) + hops
    {
      var child := nodes[cur].next[b];
      var f;
      f, hops := FailFor(cur, b, child, popped, waiting, todo);
      var linked := nodes[child := Node(nodes[child].next, f, nodes[child].outLen + nodes[f].outLen)];
      Links(nodes, word, patterns, popped, waiting, cur, todo, b, child, f, linked);
      LinksPaid(nodes, word, before, popped, waiting, cur, todo, b, child, f, hops, linked);
      nodes := linked;
      queue, cost := waiting + [child], before[child := hops];
    }

    // The failure link of `child`, the node one `b` below `cur`.
    method FailFor(cur: nat, b: Byte, child: nat, ghost popped: set<nat>, ghost queue: seq<nat>, ghost skip: set<Byte>)
        returns (fail: nat, ghost hops: nat)
      requires Progress(nodes, word, patterns, popped, queue, cur, skip)
      requires 0 < cur < |nodes| && b in nodes[cur].next && nodes[cur].next[b] == child
      ensures fail < |nodes| && child < |word| && LongestProper(word[fail], word[child], word)
      ensures FullOut(nodes[fail].outLen, word[fail], patterns)
      ensures |word[fail]| + hops <= FailDepth(nodes, word, cur) + 1
    {
      ShallowIsLinked(nodes, word, patterns, popped, queue, cur, skip, cur);
      var f: nat := nodes[cur].fail;
      hops := 0;
      while f != 0
        invariant f < |nodes| == |word|
        invariant Searching(word[f], word[cur], b, true, word)
        invariant |word[f]| + hops <= FailDepth(nodes, word, cur)
        decreases |word[f]|
      {
        if b in nodes[f].next {
          break;
        }
        ShallowIsLinked(nodes, word, patterns, popped, queue, cur, skip, f);
        SearchHops(nodes, word, f, word[cur], b, true);
        f := nodes[f].fail;
        hops := hops + 1;
      }
      EdgeSpells(nodes, word, cur, b);
      if b in nodes[f].next {
        SearchFinds(nodes, word, f, word[cur], b, true);
        EdgeSpells(nodes, word, f, b);
      } else {
        SearchFails(nodes, word, word[cur], b, true);
      }
      fail := if b in nodes[f].next && nodes[f].next[b] != child then nodes[f].next[b] else 0;
      ShallowIsLinked(nodes, word, patterns, popped, queue, cur, skip, fail);
    }

    // step: one byte forward from `state`.
    method Step(state: nat, b: Byte) returns (r: nat, ghost hops: nat)
      requires Valid()
      requires state < |nodes|
      ensures r < |nodes|
      ensures Longest(word[r], word[state] + [b], word)
      ensures |word[r]| + hops <= |word[state]| + 1
    {
      var s: nat := state;
      hops := 0;
      while true
        invariant s < |nodes| == |word|
        invariant Searching(word[s], word[state], b, false, word)
        invariant |word[s]| + hops <= |word[state]|
        decreases |word[s]|
      {
        if b in nodes[s].next {
          SearchFinds(nodes, word, s, word[state], b, false);
          return nodes[s].next[b], hops;
        }
        if s == 0 {
          SearchFails(nodes, word, word[state], b, false);
          return 0, hops;
        }
        SearchHops(nodes, word, s, word[state], b, false);
        s := nodes[s].fail;
        hops := hops + 1;
      }
    }

    // The inner loop of matches: one match for each output of the state.
    static method Report(found: seq<Match>, end: nat, lens: seq<int>) returns (out: seq<Match>)
      ensures out == found + MatchesAt(end, lens)
    {
      out := found;
      for k := 0 to |lens|
        invariant out == found + MatchesAt(end, lens[..k])
      {
        assert lens[..k + 1][..k] == lens[..k];
        out := out + [Match(end - lens[k], end)];
      }
      assert lens[..|lens|] == lens;
    }

    // matches: every occurrence of every pattern, with multiplicity.
    method Matches(text: Str) returns (out: seq<Match>, ghost hops: nat, ghost final: nat)
      requires Valid()
      ensures final < |word| && LongestBeginning(word[final], text, patterns)
      ensures forall m: Match :: Count(m, out) == Occurrences(m, text, patterns)
      ensures ScanOrder(out)
      ensures hops <= |text|
    {
      out := [];
      var state: nat := 0;
      hops := 0;
      for i := 0 to |text|
        invariant state < |nodes| == |word|
        invariant Longest(word[state], text[..i], word)
        invariant |word[state]| + hops <= i
        invariant Scanned(out, text, i, patterns)
      {
        ghost var before := state;
        ghost var h;
        state, h := Step(state, text[i]);
        hops := hops + h;
        TakeSnoc(text, i);
        LongestAdvances(nodes, word, word[before], text[..i], text[i], word[state]);
        var lens := nodes[state].outLen;
        ScanAdvances(word, word[state], text, i, patterns, lens, out);
        out := Report(out, i + 1, lens);
      }
      assert text[..|text|] == text;
      final := state;
      LongestBegins(nodes, word, patterns, word[final], text);
    }
  }
}
