/**
 restoreBatch and the guard before it (daemon/apply_cmd.go): the workspace ends up with
 exactly the reverts that are reported, and nothing else about it differs.
 */
module UndoBatch {
  import Bytes
  import opened Wrappers
  import opened FileSystem
  import opened RestoreBatch
  import opened RestoreLaws

  // The files of one session lie in no file's place: no destination is another's, or a
  // directory on the way to another, or named like what staging leaves beside it.
  ghost predicate DestsApart(e: Session, rels: seq<string>) {
    && (forall i :: 0 <= i < |rels| && e.dest(rels[i]).Some? ==> !IsStagingName(e.dest(rels[i]).value))
    && (forall i, j :: 0 <= i < |rels| && 0 <= j < |rels| && i != j && e.dest(rels[i]).Some? && e.dest(rels[j]).Some? ==>
          e.dest(rels[i]).value != e.dest(rels[j]).value && !Above(e.dest(rels[i]).value, e.dest(rels[j]).value))
  }

  // The file is as it was before the run: gone if the run made it, or the snapshot.
  ghost predicate RevertedAt(e: Session, t: Tree, rel: string) {
    && e.dest(rel).Some?
    && if rel in e.created then e.dest(rel).value !in t
       else rel in e.before && e.dest(rel).value in t && t[e.dest(rel).value] == e.before[rel]
  }

  ghost predicate IsDest(e: Session, rels: seq<string>, p: Path) {
    exists i :: 0 <= i < |rels| && e.dest(rels[i]) == Some(p)
  }

  // A directory on the way to a file put back.
  ghost predicate OnTheWay(e: Session, rels: seq<string>, p: Path) {
    exists i :: 0 <= i < |rels| && rels[i] !in e.created && e.dest(rels[i]).Some? && Above(p, e.dest(rels[i]).value)
  }

  // Elsewhere all is as it was, but for directories that were missing on the way.
  ghost predicate SameElsewhere(e: Session, t0: Tree, t: Tree, rels: seq<string>, p: Path) {
    if p in t0 then p in t && t[p] == t0[p]
    else (p in t <==> OnTheWay(e, rels, p)) && (p in t ==> t[p] == Dir)
  }

  // `t` is `t0` with the files at `rels` reverted, and nothing else.
  ghost predicate IsReverted(e: Session, t0: Tree, t: Tree, rels: seq<string>) {
    && (forall i :: 0 <= i < |rels| ==> RevertedAt(e, t, rels[i]))
    && (forall p :: !IsDest(e, rels, p) ==> SameElsewhere(e, t0, t, rels, p))
  }

  // Everything staged so far, and the tree it was staged onto.
  ghost predicate Batch(e: Session, t0: Tree, rels: seq<string>, staged: seq<Staged>) {
    && WellFormed(t0) && SnapshotsAreFiles(e) && DestsApart(e, rels)
    && StagedAll(e, t0, rels, staged)
  }

  // ---------------------------------------------------------------- staging keeps

  lemma StagedIsFresh(e: Session, t: Tree, rel: string, s: Staged)
    requires WellFormed(t) && SnapshotsAreFiles(e) && StagedOnto(e, t, rel, s)
    ensures Fresh1(e, t, s)
  {
    if s.remove {
      assert s.createdDirs == [];
    } else {
      MissingIsStacked(t, Parent(s.dest));
    }
  }

  lemma StagedKeepsForm(e: Session, t: Tree, rel: string, s: Staged)
    requires WellFormed(t) && SnapshotsAreFiles(e) && StagedOnto(e, t, rel, s)
    ensures WellFormed(t + Adds1(e, s))
  {
    if s.remove {
      assert t + Adds1(e, s) == t;
    } else {
      StagedIsFresh(e, t, rel, s);
      Adds1Are(e, t, s, []);
      forall p | p in t + Adds1(e, s) && p != []
        ensures Parent(p) in t + Adds1(e, s) && (t + Adds1(e, s))[Parent(p)] == Dir
      {
        WayAbove(e, t, s, p);
      }
    }
  }

  lemma WayAbove(e: Session, t: Tree, s: Staged, p: Path)
    requires WellFormed(t) && StagedOnto(e, t, s.rel, s) && !s.remove
    requires p in t + Adds1(e, s) && p != []
    ensures Parent(p) in t + Adds1(e, s) && (t + Adds1(e, s))[Parent(p)] == Dir
  {
    var dir := Parent(s.dest);
    MissingAre(t, dir);
    var n := if p in s.createdDirs then |p| - 1 else |dir|;
    if p in s.createdDirs {
      assert IsMissing(t, dir, p);
      assert Parent(p) == dir[..n];
    } else if s.tmp == Some(p) {
      assert Parent(p) == dir[..n];
    }
    WayIsMade(t, dir, n);
  }

  lemma StagedPrefix(e: Session, t0: Tree, rels: seq<string>, staged: seq<Staged>, r: nat)
    requires Batch(e, t0, rels, staged) && r <= |staged|
    ensures Batch(e, t0, rels, staged[..r])
  {
    forall i | 0 <= i < r
      ensures StagedAt(e, t0, rels, staged[..r], i)
    {
      assert StagedAt(e, t0, rels, staged, i);
      assert staged[..r][..i] == staged[..i];
    }
  }

  lemma {:induction false} BatchIsSound(e: Session, t0: Tree, rels: seq<string>, staged: seq<Staged>)
    requires Batch(e, t0, rels, staged)
    ensures FreshOnto(e, t0, staged) && WellFormed(t0 + Adds(e, staged))
    decreases |staged|
  {
    if staged == [] {
      assert t0 + Adds(e, staged) == t0;
    } else {
      var n := |staged| - 1;
      var init, s := staged[..n], staged[n];
      assert staged == init + [s];
      StagedPrefix(e, t0, rels, staged, n);
      BatchIsSound(e, t0, rels, init);
      assert StagedAt(e, t0, rels, staged, n);
      StagedIsFresh(e, t0 + Adds(e, init), rels[n], s);
      StagedKeepsForm(e, t0 + Adds(e, init), rels[n], s);
      FreshSnoc(e, t0, init, s);
      AddsSnoc(e, init, s);
      PlusTogether(t0, Adds(e, init), Adds1(e, s));
    }
  }

  // ---------------------------------------------------------------- later stagings keep clear

  lemma {:induction false} InAllDirs(staged: seq<Staged>, p: Path) returns (k: nat)
    requires p in AllDirs(staged)
    ensures k < |staged| && p in staged[k].createdDirs
  {
    var n := |staged| - 1;
    if p in staged[n].createdDirs {
      k := n;
    } else {
      k := InAllDirs(staged[..n], p);
    }
  }

  // Every directory made lies above a file to be put back.
  lemma DirIsAbove(e: Session, t0: Tree, rels: seq<string>, staged: seq<Staged>, k: nat, p: Path)
    requires Batch(e, t0, rels, staged) && k < |staged| && p in staged[k].createdDirs
    ensures !staged[k].remove && rels[k] !in e.created && e.dest(rels[k]) == Some(staged[k].dest) && Above(p, staged[k].dest)
  {
    var s := staged[k];
    assert StagedAt(e, t0, rels, staged, k);
    var dirs := Missing(t0 + Adds(e, staged[..k]), Parent(s.dest));
    MissingAre(t0 + Adds(e, staged[..k]), Parent(s.dest));
    var i :| 0 <= i < |dirs| && dirs[i] == p;
    assert IsMissing(t0 + Adds(e, staged[..k]), Parent(s.dest), p);
    assert s.dest[..|p|] == Parent(s.dest)[..|p|];
  }

  // Nothing that is added is a destination.
  lemma AddsNoDest(e: Session, t0: Tree, rels: seq<string>, staged: seq<Staged>, k: nat, i: nat)
    requires Batch(e, t0, rels, staged) && k < |staged| && i < |rels| && e.dest(rels[i]).Some?
    ensures e.dest(rels[i]).value !in staged[k].createdDirs && staged[k].tmp != e.dest(rels[i])
  {
    var d := e.dest(rels[i]).value;
    assert StagedAt(e, t0, rels, staged, k);
    if d in staged[k].createdDirs {
      DirIsAbove(e, t0, rels, staged, k, d);
    }
  }

  lemma LaterNoDest(e: Session, t0: Tree, rels: seq<string>, staged: seq<Staged>, r: nat, i: nat)
    requires Batch(e, t0, rels, staged) && r <= |staged| && i < |rels| && e.dest(rels[i]).Some?
    ensures e.dest(rels[i]).value !in AllDirs(staged[r..]) && e.dest(rels[i]).value !in TempsOf(staged[r..])
  {
    var b := staged[r..];
    forall k | 0 <= k < |b|
      ensures e.dest(rels[i]).value !in b[k].createdDirs && b[k].tmp != e.dest(rels[i])
    {
      AddsNoDest(e, t0, rels, staged, r + k, i);
    }
    NotInAllDirs(b, e.dest(rels[i]).value);
    NotInTemps(b, e.dest(rels[i]).value);
  }

  lemma NotInTemps(staged: seq<Staged>, p: Path)
    requires forall k :: 0 <= k < |staged| ==> staged[k].tmp != Some(p)
    ensures p !in TempsOf(staged)
  {
  }

  lemma NotInAllDirs(staged: seq<Staged>, p: Path)
    requires forall k :: 0 <= k < |staged| ==> p !in staged[k].createdDirs
    ensures p !in AllDirs(staged)
  {
    if p in AllDirs(staged) {
      var k := InAllDirs(staged, p);
    }
  }

  // The way to a file to be put back stands once it is staged.
  lemma WayStands(e: Session, t0: Tree, rels: seq<string>, staged: seq<Staged>, i: nat, p: Path)
    requires Batch(e, t0, rels, staged) && i < |staged| && !staged[i].remove && Above(p, staged[i].dest)
    ensures p in t0 + Adds(e, staged) && (t0 + Adds(e, staged))[p] == Dir
  {
    WayStandsHere(e, t0, rels, staged, i, p);
    BatchIsSound(e, t0, rels, staged);
    Around(staged, i);
    StaysAdded(e, t0, staged[..i], staged[i], staged[i + 1..], p);
  }

  lemma Around<T>(s: seq<T>, i: nat)
    requires i < |s|
    ensures s == s[..i] + [s[i]] + s[i + 1..]
  {
  }

  lemma StaysAdded(e: Session, t0: Tree, init: seq<Staged>, s: Staged, later: seq<Staged>, p: Path)
    requires FreshOnto(e, t0, init + [s] + later) && p in t0 + Adds(e, init) + Adds1(e, s)
    ensures p in t0 + Adds(e, init + [s] + later)
    ensures (t0 + Adds(e, init + [s] + later))[p] == (t0 + Adds(e, init) + Adds1(e, s))[p]
  {
    AddsSnoc(e, init, s);
    PlusTogether(t0, Adds(e, init), Adds1(e, s));
    StaysStaged(e, t0, init + [s], later, p);
  }

  lemma WayStandsHere(e: Session, t0: Tree, rels: seq<string>, staged: seq<Staged>, i: nat, p: Path)
    requires Batch(e, t0, rels, staged) && i < |staged| && !staged[i].remove && Above(p, staged[i].dest)
    ensures var t := t0 + Adds(e, staged[..i]) + Adds1(e, staged[i]); p in t && t[p] == Dir
  {
    StagedPrefix(e, t0, rels, staged, i);
    BatchIsSound(e, t0, rels, staged[..i]);
    assert StagedAt(e, t0, rels, staged, i);
    WayStandsAt(e, t0 + Adds(e, staged[..i]), rels[i], staged[i], p);
  }

  lemma WayStandsAt(e: Session, t: Tree, rel: string, s: Staged, p: Path)
    requires WellFormed(t) && StagedOnto(e, t, rel, s) && !s.remove && Above(p, s.dest)
    ensures p in t + Adds1(e, s) && (t + Adds1(e, s))[p] == Dir
  {
    var dir := Parent(s.dest);
    assert dir[..|p|] == p;
    WayIsMade(t, dir, |p|);
  }

  lemma StaysStaged(e: Session, t0: Tree, a: seq<Staged>, b: seq<Staged>, p: Path)
    requires FreshOnto(e, t0, a + b) && p in t0 + Adds(e, a)
    ensures p in t0 + Adds(e, a + b) && (t0 + Adds(e, a + b))[p] == (t0 + Adds(e, a))[p]
  {
    FreshAppend(e, t0, a, b);
    AddsAppend(e, a, b);
    AddsAre(e, t0 + Adds(e, a), b, p);
    PlusKeeps(t0, Adds(e, a), Adds(e, b), p);
  }

  lemma PlusKeeps(t: Tree, a: Tree, b: Tree, p: Path)
    requires p in t + a && p !in b
    ensures p in t + (a + b) && (t + (a + b))[p] == (t + a)[p]
  {
  }

  // ---------------------------------------------------------------- the commits so far

  // The tree with all of `staged` staged and committed.
  ghost function Settled(e: Session, t0: Tree, staged: seq<Staged>): Tree {
    Committed(t0 + Adds(e, staged), staged)
  }

  // What is staged later lies beside what is committed first.
  lemma LaterIsBeside(e: Session, t0: Tree, rels: seq<string>, staged: seq<Staged>, r: nat)
    requires Batch(e, t0, rels, staged) && r <= |staged|
    ensures FreshOnto(e, t0 + Adds(e, staged[..r]), staged[r..])
    ensures Adds(e, staged[r..]).Keys !! DestsOf(staged[..r]) && Adds(e, staged[r..]).Keys !! TempsOf(staged[..r])
  {
    var a, b := staged[..r], staged[r..];
    BatchIsSound(e, t0, rels, staged);
    assert staged == a + b;
    FreshAppend(e, t0, a, b);
    forall p | p in Adds(e, b)
      ensures p !in DestsOf(a) && p !in TempsOf(a)
    {
      LaterIsNew(e, t0, rels, staged, r, p);
    }
  }

  lemma LaterIsNew(e: Session, t0: Tree, rels: seq<string>, staged: seq<Staged>, r: nat, p: Path)
    requires Batch(e, t0, rels, staged) && r <= |staged| && FreshOnto(e, t0, staged[..r])
    requires FreshOnto(e, t0 + Adds(e, staged[..r]), staged[r..]) && p in Adds(e, staged[r..])
    ensures p !in DestsOf(staged[..r]) && p !in TempsOf(staged[..r])
  {
    var a, b := staged[..r], staged[r..];
    AddsAre(e, t0 + Adds(e, a), b, p);
    AddsAre(e, t0, a, p);
    forall i | 0 <= i < r
      ensures a[i].dest != p
    {
      assert StagedAt(e, t0, rels, staged, i);
      LaterNoDest(e, t0, rels, staged, r, i);
    }
  }

  lemma SettledIsClear(e: Session, t0: Tree, rels: seq<string>, staged: seq<Staged>, r: nat, q: Path)
    requires Batch(e, t0, rels, staged) && r <= |staged| && q in Settled(e, t0, staged[..r])
    ensures ClearOf(t0 + Adds(e, staged[..r]), staged[r..], q)
  {
    var a, b := staged[..r], staged[r..];
    CommittedKeys(t0 + Adds(e, a), a, q);
    if q !in t0 + Adds(e, a) {
      var i :| 0 <= i < r && !a[i].remove && a[i].dest == q;
      assert StagedAt(e, t0, rels, staged, i);
      LaterNoDest(e, t0, rels, staged, r, i);
      StagedPrefix(e, t0, rels, staged, r);
      WayStands(e, t0, rels, a, i, Parent(q));
      LaterIsBeside(e, t0, rels, staged, r);
      AddsAre(e, t0 + Adds(e, a), b, Parent(q));
    }
  }

  // Stopping after `r` commits and discarding the rest leaves the first `r`, settled.
  lemma StoppedIsSettled(e: Session, t0: Tree, rels: seq<string>, staged: seq<Staged>, r: nat)
    requires Batch(e, t0, rels, staged) && r <= |staged|
    ensures Discarded(Committed(t0 + Adds(e, staged), staged[..r]), staged[r..]) == Settled(e, t0, staged[..r])
  {
    var a, b := staged[..r], staged[r..];
    assert staged == a + b;
    AddsAppend(e, a, b);
    PlusTogether(t0, Adds(e, a), Adds(e, b));
    LaterIsBeside(e, t0, rels, staged, r);
    CommittedBeside(t0 + Adds(e, a), Adds(e, b), a);
    forall q | q in Settled(e, t0, a)
      ensures ClearOf(t0 + Adds(e, a), b, q)
    {
      SettledIsClear(e, t0, rels, staged, r, q);
    }
    FreshElsewhere(e, t0 + Adds(e, a), Settled(e, t0, a), b);
    DiscardUndoes(e, Settled(e, t0, a), b);
  }

  // ---------------------------------------------------------------- one more file reverted

  lemma {:induction false} Survives(t: Tree, staged: seq<Staged>, p: Path)
    requires p in t && p !in DestsOf(staged) && p !in TempsOf(staged)
    ensures p in Committed(t, staged) && Committed(t, staged)[p] == t[p]
  {
    if staged != [] {
      var init, s := staged[..|staged| - 1], staged[|staged| - 1];
      assert staged == init + [s];
      OfSnoc(init, s);
      Survives(t, init, p);
    }
  }

  // What stands on the way to the next file still stands when those before it are settled.
  lemma WayIsSettled(e: Session, t0: Tree, rels: seq<string>, staged: seq<Staged>, n: nat, p: Path)
    requires Batch(e, t0, rels, staged) && |staged| == n + 1 && !staged[n].remove && Above(p, staged[n].dest)
    ensures p in Settled(e, t0, staged[..n]) || p in staged[n].createdDirs
  {
    var init, s := staged[..n], staged[n];
    var t := t0 + Adds(e, init);
    assert StagedAt(e, t0, rels, staged, n);
    StagedPrefix(e, t0, rels, staged, n);
    BatchIsSound(e, t0, rels, init);
    WayStandsAt(e, t, rels[n], s, p);
    StagedIsFresh(e, t, rels[n], s);
    Adds1Are(e, t, s, p);
    if p !in s.createdDirs {
      AddsAre(e, t0, init, p);
      NoDestAbove(e, t0, rels, staged, n, p);
      Survives(t, init, p);
    }
  }

  lemma NoDestAbove(e: Session, t0: Tree, rels: seq<string>, staged: seq<Staged>, n: nat, p: Path)
    requires Batch(e, t0, rels, staged) && n < |staged| && Above(p, staged[n].dest)
    ensures p !in DestsOf(staged[..n]) && !IsDest(e, rels[..n], p)
  {
    assert StagedAt(e, t0, rels, staged, n);
    forall i | 0 <= i < n
      ensures staged[i].dest != p && e.dest(rels[i]) == Some(staged[i].dest)
    {
      assert StagedAt(e, t0, rels, staged, i);
    }
  }

  lemma SettledSnoc(e: Session, t0: Tree, rels: seq<string>, staged: seq<Staged>, n: nat)
    requires Batch(e, t0, rels, staged) && |staged| == n + 1
    ensures Settled(e, t0, staged) == Commit1(Settled(e, t0, staged[..n]) + Adds1(e, staged[n]), staged[n])
  {
    var init, s := staged[..n], staged[n];
    assert staged == init + [s] && staged[n..] == [s];
    AddsSnoc(e, init, s);
    AddsSnoc(e, [], s);
    assert [] + [s] == [s] && Adds(e, [s]) == Adds1(e, s);
    PlusTogether(t0, Adds(e, init), Adds1(e, s));
    LaterIsBeside(e, t0, rels, staged, n);
    CommittedBeside(t0 + Adds(e, init), Adds1(e, s), init);
    CommittedSnoc(t0 + Adds(e, staged), init, s);
  }

  // Where nothing is a destination.
  lemma ElsewhereStep(e: Session, t0: Tree, rels: seq<string>, staged: seq<Staged>, n: nat, p: Path)
    requires Batch(e, t0, rels, staged) && |staged| == n + 1
    requires IsReverted(e, t0, Settled(e, t0, staged[..n]), rels[..n])
    requires !IsDest(e, rels[..n + 1], p)
    ensures SameElsewhere(e, t0, Settled(e, t0, staged), rels[..n + 1], p)
  {
    var init, s := staged[..n], staged[n];
    var t, was := t0 + Adds(e, init), Settled(e, t0, init);
    assert StagedAt(e, t0, rels, staged, n);
    StagedPrefix(e, t0, rels, staged, n);
    BatchIsSound(e, t0, rels, init);
    StagedIsFresh(e, t, rels[n], s);
    Adds1Are(e, t, s, p);
    SettledSnoc(e, t0, rels, staged, n);
    NotDestBefore(e, rels, n, p);
    assert SameElsewhere(e, t0, was, rels[..n], p);
    OnTheWayStep(e, rels, n, p);
    if !s.remove && s.tmp == Some(p) {
      TempNotOnTheWay(e, t0, rels, staged, n);
    }
    if !s.remove && Above(p, s.dest) {
      WayIsSettled(e, t0, rels, staged, n, p);
    }
    if p in s.createdDirs {
      DirIsAbove(e, t0, rels, staged, n, p);
    }
    CommitElsewhere(e, was, s, p);
  }

  lemma CommitElsewhere(e: Session, was: Tree, s: Staged, p: Path)
    requires p != s.dest && (!s.remove ==> s.tmp.Some? && s.rel in e.before) && (s.remove ==> s.createdDirs == [] && s.tmp.None?)
    ensures var now := Commit1(was + Adds1(e, s), s);
            && (s.tmp == Some(p) ==> p !in now)
            && (s.tmp != Some(p) && p !in s.createdDirs ==> (p in now <==> p in was) && (p in was ==> now[p] == was[p]))
            && (s.tmp != Some(p) && p in s.createdDirs ==> p in now && now[p] == Dir)
  {
  }

  lemma NotDestBefore(e: Session, rels: seq<string>, n: nat, p: Path)
    requires n < |rels| && !IsDest(e, rels[..n + 1], p)
    ensures !IsDest(e, rels[..n], p) && e.dest(rels[n]) != Some(p)
  {
    var more := rels[..n + 1];
    assert more[n] == rels[n];
    forall i | 0 <= i < n
      ensures e.dest(rels[..n][i]) != Some(p)
    {
      assert more[i] == rels[i];
    }
  }

  lemma OnTheWayStep(e: Session, rels: seq<string>, n: nat, p: Path)
    requires n < |rels|
    ensures OnTheWay(e, rels[..n + 1], p) <==>
            OnTheWay(e, rels[..n], p) || (rels[n] !in e.created && e.dest(rels[n]).Some? && Above(p, e.dest(rels[n]).value))
  {
    var more := rels[..n + 1];
    assert more[n] == rels[n];
    if OnTheWay(e, rels[..n], p) {
      var i :| 0 <= i < n && rels[i] !in e.created && e.dest(rels[i]).Some? && Above(p, e.dest(rels[i]).value);
      assert more[i] == rels[i];
    }
    if OnTheWay(e, more, p) {
      var i :| 0 <= i < n + 1 && more[i] !in e.created && e.dest(more[i]).Some? && Above(p, e.dest(more[i]).value);
      assert i < n ==> rels[..n][i] == more[i];
    }
  }

  // What staging leaves beside a file is on the way to none.
  lemma TempNotOnTheWay(e: Session, t0: Tree, rels: seq<string>, staged: seq<Staged>, n: nat)
    requires Batch(e, t0, rels, staged) && n < |staged| && !staged[n].remove && staged[n].tmp.Some?
    ensures !OnTheWay(e, rels[..n + 1], staged[n].tmp.value)
  {
    var tmp := staged[n].tmp.value;
    assert StagedAt(e, t0, rels, staged, n);
    forall i | 0 <= i < n + 1 && rels[i] !in e.created && e.dest(rels[i]).Some?
      ensures !Above(tmp, e.dest(rels[i]).value)
    {
      if i < n {
        EarlierWay(e, t0, rels, staged, n, i, tmp);
      }
    }
  }

  lemma EarlierWay(e: Session, t0: Tree, rels: seq<string>, staged: seq<Staged>, n: nat, i: nat, tmp: Path)
    requires Batch(e, t0, rels, staged) && i < n < |staged| && rels[i] !in e.created
    requires tmp !in t0 + Adds(e, staged[..n])
    ensures e.dest(rels[i]).Some? && !Above(tmp, e.dest(rels[i]).value)
  {
    assert StagedAt(e, t0, rels, staged, i);
    StagedPrefix(e, t0, rels, staged, n);
    if Above(tmp, staged[i].dest) {
      WayStands(e, t0, rels, staged[..n], i, tmp);
    }
  }

  // At the destinations.
  lemma DestStep(e: Session, t0: Tree, rels: seq<string>, staged: seq<Staged>, n: nat, i: nat)
    requires Batch(e, t0, rels, staged) && |staged| == n + 1 && i <= n
    requires IsReverted(e, t0, Settled(e, t0, staged[..n]), rels[..n])
    ensures RevertedAt(e, Settled(e, t0, staged), rels[i])
  {
    var s, was := staged[n], Settled(e, t0, staged[..n]);
    assert StagedAt(e, t0, rels, staged, n);
    SettledSnoc(e, t0, rels, staged, n);
    if i < n {
      assert rels[..n][i] == rels[i];
      assert RevertedAt(e, was, rels[i]);
      AddsNoDest(e, t0, rels, staged, n, i);
      assert e.dest(rels[i]).value != e.dest(rels[n]).value;
      CommitElsewhere(e, was, s, e.dest(rels[i]).value);
    } else {
      CommitAt(e, was, s);
    }
  }

  lemma CommitAt(e: Session, was: Tree, s: Staged)
    requires !s.remove ==> s.tmp.Some? && s.rel in e.before
    ensures var now := Commit1(was + Adds1(e, s), s);
            if s.remove then s.dest !in now else s.dest in now && now[s.dest] == e.before[s.rel]
  {
  }

  lemma {:induction false} SettledIsReverted(e: Session, t0: Tree, rels: seq<string>, staged: seq<Staged>)
    requires Batch(e, t0, rels, staged)
    ensures IsReverted(e, t0, Settled(e, t0, staged), rels[..|staged|])
    decreases |staged|
  {
    if staged == [] {
      assert Settled(e, t0, []) == t0;
    } else {
      var n := |staged| - 1;
      StagedPrefix(e, t0, rels, staged, n);
      SettledIsReverted(e, t0, rels, staged[..n]);
      var t, done := Settled(e, t0, staged), rels[..n + 1];
      forall i | 0 <= i < |done|
        ensures RevertedAt(e, t, done[i])
      {
        DestStep(e, t0, rels, staged, n, i);
      }
      forall p: Path | !IsDest(e, done, p)
        ensures SameElsewhere(e, t0, t, done, p)
      {
        ElsewhereStep(e, t0, rels, staged, n, p);
      }
    }
  }

  lemma NothingReverted(e: Session, t0: Tree, t: Tree)
    requires IsReverted(e, t0, t, [])
    ensures t == t0
  {
    forall p: Path
      ensures p in t <==> p in t0
      ensures p in t ==> t[p] == t0[p]
    {
      assert !IsDest(e, [], p);
      assert SameElsewhere(e, t0, t, [], p);
    }
  }

  // ---------------------------------------------------------------- nothing in the way

  // No directory on the way to a file is named like what staging leaves.
  ghost predicate PlainWays(e: Session, rels: seq<string>) {
    forall i, p: Path :: 0 <= i < |rels| && e.dest(rels[i]).Some? && Above(p, e.dest(rels[i]).value) ==> !IsStagingName(p)
  }

  ghost predicate NoneInTheWay(e: Session, t: Tree, rels: seq<string>) {
    PlainWays(e, rels) && forall i :: 0 <= i < |rels| ==> MayStage(e, t, rels[i])
  }

  // What may be staged at first may still be staged when others have been.
  lemma MayStageStill(e: Session, t0: Tree, rels: seq<string>, staged: seq<Staged>, i: nat)
    requires Batch(e, t0, rels, staged) && NoneInTheWay(e, t0, rels) && i < |rels|
    ensures MayStage(e, t0 + Adds(e, staged), rels[i])
  {
    var d, adds := e.dest(rels[i]).value, Adds(e, staged);
    BatchIsSound(e, t0, rels, staged);
    DestIsNotAdded(e, t0, rels, staged, i);
    forall n | 0 <= n <= |Parent(d)| && Parent(d)[..n] in adds
      ensures adds[Parent(d)[..n]] == Dir
    {
      assert Parent(d)[..n] == d[..n] && Above(d[..n], d);
      AddsAre(e, t0, staged, d[..n]);
      if d[..n] in TempsOf(staged) {
        TempIsStagingName(e, t0, rels, staged, d[..n]);
      }
    }
    WayStaysOpen(t0, adds, Parent(d));
  }

  lemma DestIsNotAdded(e: Session, t0: Tree, rels: seq<string>, staged: seq<Staged>, i: nat)
    requires Batch(e, t0, rels, staged) && i < |rels| && e.dest(rels[i]).Some?
    ensures e.dest(rels[i]).value !in Adds(e, staged)
  {
    BatchIsSound(e, t0, rels, staged);
    assert staged[0..] == staged;
    LaterNoDest(e, t0, rels, staged, 0, i);
    AddsAre(e, t0, staged, e.dest(rels[i]).value);
  }

  lemma TempIsStagingName(e: Session, t0: Tree, rels: seq<string>, staged: seq<Staged>, p: Path)
    requires Batch(e, t0, rels, staged) && p in TempsOf(staged)
    ensures IsStagingName(p)
  {
    var k :| 0 <= k < |staged| && staged[k].tmp == Some(p);
    assert StagedAt(e, t0, rels, staged, k);
  }

  // Committing makes no directory.
  lemma {:induction false} CommittedDirs(t: Tree, staged: seq<Staged>, q: Path)
    requires forall p :: p in TempsOf(staged) && p in t ==> t[p].File?
    requires q in Committed(t, staged) && Committed(t, staged)[q] == Dir
    ensures q in t && t[q] == Dir
  {
    if staged != [] {
      var init, s := staged[..|staged| - 1], staged[|staged| - 1];
      assert staged == init + [s];
      OfSnoc(init, s);
      var was := Committed(t, init);
      if s.tmp.Some? && s.tmp.value in was && was[s.tmp.value] == Dir {
        CommittedDirs(t, init, s.tmp.value);
      } else {
        CommittedDirs(t, init, q);
      }
    }
  }

  // The next commit has all it needs.
  ghost predicate CanCommit(t: Tree, s: Staged) {
    !(s.dest in t && t[s.dest] == Dir) && (!s.remove ==> s.tmp.Some? && s.tmp.value in t)
  }

  lemma NextCommits(e: Session, t0: Tree, rels: seq<string>, staged: seq<Staged>, i: nat)
    requires Batch(e, t0, rels, staged) && i < |staged|
    ensures CanCommit(Committed(t0 + Adds(e, staged), staged[..i]), staged[i])
  {
    DestIsNoDir(e, t0, rels, staged, i);
    TempsAreFilesYet(e, t0, rels, staged, i);
    NoDirCommitted(t0 + Adds(e, staged), staged[..i], staged[i].dest);
    if !staged[i].remove {
      TempSurvives(e, t0, rels, staged, i);
    }
  }

  lemma NoDirCommitted(t: Tree, staged: seq<Staged>, q: Path)
    requires forall p :: p in TempsOf(staged) && p in t ==> t[p].File?
    requires !(q in t && t[q] == Dir)
    ensures var now := Committed(t, staged); !(q in now && now[q] == Dir)
  {
    if q in Committed(t, staged) && Committed(t, staged)[q] == Dir {
      CommittedDirs(t, staged, q);
    }
  }

  lemma DestIsNoDir(e: Session, t0: Tree, rels: seq<string>, staged: seq<Staged>, i: nat)
    requires Batch(e, t0, rels, staged) && i < |staged|
    ensures var t := t0 + Adds(e, staged); !(staged[i].dest in t && t[staged[i].dest] == Dir)
  {
    assert StagedAt(e, t0, rels, staged, i);
    DestIsNotAdded(e, t0, rels, staged, i);
    StagedPrefix(e, t0, rels, staged, i);
    DestIsNotAdded(e, t0, rels, staged[..i], i);
  }

  lemma TempsAreFilesYet(e: Session, t0: Tree, rels: seq<string>, staged: seq<Staged>, i: nat)
    requires Batch(e, t0, rels, staged) && i <= |staged|
    ensures var t := t0 + Adds(e, staged); forall p :: p in TempsOf(staged[..i]) && p in t ==> t[p].File?
  {
    BatchIsSound(e, t0, rels, staged);
    forall p | p in TempsOf(staged[..i]) && p in t0 + Adds(e, staged)
      ensures (t0 + Adds(e, staged))[p].File?
    {
      TempsOfPart(staged, i, p);
      TempsAreFiles(e, t0, staged, p);
    }
  }

  lemma TempsOfPart(staged: seq<Staged>, i: nat, p: Path)
    requires i <= |staged| && p in TempsOf(staged[..i])
    ensures p in TempsOf(staged)
  {
    var k :| 0 <= k < i && staged[..i][k].tmp == Some(p);
    assert staged[k].tmp == Some(p);
  }

  lemma TempSurvives(e: Session, t0: Tree, rels: seq<string>, staged: seq<Staged>, i: nat)
    requires Batch(e, t0, rels, staged) && i < |staged| && !staged[i].remove
    ensures staged[i].tmp.Some? && staged[i].tmp.value in Committed(t0 + Adds(e, staged), staged[..i])
  {
    var a := staged[..i];
    assert StagedAt(e, t0, rels, staged, i);
    var tmp := staged[i].tmp.value;
    BatchIsSound(e, t0, rels, staged);
    AddsAre(e, t0, staged, tmp);
    StagedPrefix(e, t0, rels, staged, i);
    BatchIsSound(e, t0, rels, a);
    AddsAre(e, t0, a, tmp);
    forall k | 0 <= k < i
      ensures a[k].dest != tmp
    {
      assert StagedAt(e, t0, rels, staged, k);
    }
    Survives(t0 + Adds(e, staged), a, tmp);
  }

  // ---------------------------------------------------------------- restoreBatch

  datatype Reverted = Reverted(rel: string, removed: bool)

  ghost predicate Reports(e: Session, reverted: seq<Reverted>, rels: seq<string>) {
    && |reverted| <= |rels|
    && forall i :: 0 <= i < |reverted| ==> reverted[i] == Reverted(rels[i], rels[i] in e.created)
  }

  // The staging loop: all of them, or nothing at all.
  method StageAll(e: Session, disk: Disk, rels: seq<string>) returns (staged: Option<seq<Staged>>)
    requires WellFormed(disk.tree) && SnapshotsAreFiles(e) && DestsApart(e, rels)
    modifies disk
    ensures staged.None? ==> disk.tree == old(disk.tree)
    ensures staged.Some? ==>
              && |staged.value| == |rels| && Batch(e, old(disk.tree), rels, staged.value)
              && disk.tree == old(disk.tree) + Adds(e, staged.value)
    ensures disk.faults >= old(disk.faults)
    ensures disk.faults == old(disk.faults) && NoneInTheWay(e, old(disk.tree), rels) ==> staged.Some?
  {
    ghost var t0 := disk.tree;
    var all: seq<Staged> := [];
    assert t0 + Adds(e, []) == t0;
    for i := 0 to |rels|
      invariant |all| == i && Batch(e, t0, rels, all)
      invariant disk.tree == t0 + Adds(e, all)
      invariant disk.faults >= old(disk.faults)
    {
      BatchIsSound(e, t0, rels, all);
      if NoneInTheWay(e, t0, rels) {
        MayStageStill(e, t0, rels, all, i);
      }
      var s := StageRestore(e, disk, rels[i]);
      if s.None? {
        DiscardUndoes(e, t0, all);
        DiscardStaged(disk, all);
        return None;
      }
      BatchGrows(e, t0, rels, all, s.value);
      all := all + [s.value];
    }
    return Some(all);
  }

  lemma BatchGrows(e: Session, t0: Tree, rels: seq<string>, staged: seq<Staged>, s: Staged)
    requires Batch(e, t0, rels, staged) && |staged| < |rels|
    requires StagedOnto(e, t0 + Adds(e, staged), rels[|staged|], s)
    ensures Batch(e, t0, rels, staged + [s])
    ensures t0 + Adds(e, staged) + Adds1(e, s) == t0 + Adds(e, staged + [s])
  {
    var more := staged + [s];
    forall i | 0 <= i < |more|
      ensures StagedAt(e, t0, rels, more, i)
    {
      assert more[..i] == staged[..i];
      assert staged[..|staged|] == staged;
      assert i < |staged| ==> StagedAt(e, t0, rels, staged, i);
    }
    AddsSnoc(e, staged, s);
    PlusTogether(t0, Adds(e, staged), Adds1(e, s));
  }

  // stagedRestore.commit
  method CommitOne(disk: Disk, s: Staged) returns (ok: bool)
    requires !s.remove ==> s.tmp.Some?
    modifies disk
    ensures !ok ==> disk.tree == old(disk.tree)
    ensures ok ==> disk.tree == Commit1(old(disk.tree), s)
    ensures disk.faults >= old(disk.faults)
    ensures disk.faults == old(disk.faults) && CanCommit(old(disk.tree), s) ==> ok
  {
    if s.remove {
      ok := disk.Remove(s.dest);
    } else {
      ok := disk.Rename(s.tmp.value, s.dest);
    }
  }

  // The commit loop: as far as it gets, the rest discarded.
  method CommitAll(e: Session, disk: Disk, ghost t0: Tree, rels: seq<string>, staged: seq<Staged>)
    returns (reverted: seq<Reverted>, ok: bool)
    requires |staged| == |rels| && Batch(e, t0, rels, staged) && disk.tree == t0 + Adds(e, staged)
    modifies disk
    ensures Reports(e, reverted, rels)
    ensures disk.tree == Discarded(Committed(t0 + Adds(e, staged), staged[..|reverted|]), staged[|reverted|..])
    ensures ok ==> |reverted| == |rels|
    ensures disk.faults >= old(disk.faults) && (disk.faults == old(disk.faults) ==> ok)
  {
    reverted := [];
    for i := 0 to |staged|
      invariant |reverted| == i && Reports(e, reverted, rels)
      invariant disk.tree == Committed(t0 + Adds(e, staged), staged[..i])
      invariant disk.faults >= old(disk.faults)
    {
      NextCommits(e, t0, rels, staged, i);
      assert StagedAt(e, t0, rels, staged, i);
      var done := CommitOne(disk, staged[i]);
      if !done {
        DiscardStaged(disk, staged[i..]);
        return reverted, false;
      }
      assert staged[..i + 1][..i] == staged[..i];
      reverted := reverted + [Reverted(staged[i].rel, staged[i].remove)];
    }
    return reverted, true;
  }

  // restoreBatch. WHAT IS REPORTED IS WHAT HAPPENED: the tree is the old one with exactly the
  // reported files reverted; all of them if nothing failed, none if staging did, and a first
  // part if a commit did. No temporary file and no directory is left over. And all of them are
  // reverted whenever each of them may be and no operation fails of itself.
  method RestoreAll(e: Session, disk: Disk, rels: seq<string>) returns (reverted: seq<Reverted>, ok: bool)
    requires WellFormed(disk.tree) && SnapshotsAreFiles(e) && DestsApart(e, rels)
    modifies disk
    ensures Reports(e, reverted, rels)
    ensures IsReverted(e, old(disk.tree), disk.tree, rels[..|reverted|])
    ensures ok ==> |reverted| == |rels|
    ensures reverted == [] ==> disk.tree == old(disk.tree)
    ensures disk.faults >= old(disk.faults)
    ensures disk.faults == old(disk.faults) && NoneInTheWay(e, old(disk.tree), rels) ==> ok
  {
    ghost var t0 := disk.tree;
    var all := StageAll(e, disk, rels);
    if all.None? {
      NothingIsReverted(e, t0);
      return [], false;
    }
    reverted, ok := CommitAll(e, disk, t0, rels, all.value);
    Stopped(e, t0, rels, all.value, |reverted|);
  }

  lemma NothingIsReverted(e: Session, t: Tree)
    ensures IsReverted(e, t, t, [])
  {
  }

  lemma Stopped(e: Session, t0: Tree, rels: seq<string>, staged: seq<Staged>, r: nat)
    requires Batch(e, t0, rels, staged) && r <= |staged|
    ensures var t := Discarded(Committed(t0 + Adds(e, staged), staged[..r]), staged[r..]);
            IsReverted(e, t0, t, rels[..r]) && (r == 0 ==> t == t0)
  {
    StoppedIsSettled(e, t0, rels, staged, r);
    StagedPrefix(e, t0, rels, staged, r);
    SettledIsReverted(e, t0, rels, staged[..r]);
    if r == 0 {
      NothingReverted(e, t0, Settled(e, t0, []));
    }
  }
}
