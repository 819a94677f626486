/**
 What a staged batch comes to (daemon/apply_cmd.go): staging only adds, and what is not
 committed is taken out again without a trace.
 */
module RestoreLaws {
  import Bytes
  import opened Wrappers
  import opened FileSystem
  import opened RestoreBatch

  ghost function TempsOf(staged: seq<Staged>): (r: set<Path>)
    ensures forall i :: 0 <= i < |staged| && staged[i].tmp.Some? ==> staged[i].tmp.value in r
  {
    set s | s in staged && s.tmp.Some? :: s.tmp.value
  }

  ghost function DestsOf(staged: seq<Staged>): set<Path> {
    set s | s in staged :: s.dest
  }

  lemma OfSnoc(staged: seq<Staged>, s: Staged)
    ensures TempsOf(staged + [s]) == TempsOf(staged) + if s.tmp.Some? then {s.tmp.value} else {}
    ensures DestsOf(staged + [s]) == DestsOf(staged) + {s.dest}
  {
  }

  // ---------------------------------------------------------------- fresh additions

  ghost predicate Fresh1(e: Session, t: Tree, s: Staged) {
    && Stacked(t, s.createdDirs)
    && (s.tmp.Some? ==> s.rel in e.before && e.before[s.rel].File? && s.tmp.value !in t && s.tmp.value !in s.createdDirs)
  }

  ghost predicate FreshOnto(e: Session, t: Tree, staged: seq<Staged>) {
    staged == [] ||
    (var init := staged[..|staged| - 1];
     FreshOnto(e, t, init) && Fresh1(e, t + Adds(e, init), staged[|staged| - 1]))
  }

  ghost predicate KnownAdd(e: Session, staged: seq<Staged>, p: Path) {
    && (p in Adds(e, staged) <==> p in AllDirs(staged) || p in TempsOf(staged))
    && (p in TempsOf(staged) ==> p in Adds(e, staged) && Adds(e, staged)[p].File?)
    && (p in AllDirs(staged) ==> p in Adds(e, staged) && Adds(e, staged)[p] == Dir)
  }

  lemma {:induction false} AddsAre(e: Session, t: Tree, staged: seq<Staged>, p: Path)
    requires FreshOnto(e, t, staged)
    ensures KnownAdd(e, staged, p)
    ensures p in Adds(e, staged) ==> p !in t
  {
    if staged != [] {
      var init, s := staged[..|staged| - 1], staged[|staged| - 1];
      assert staged == init + [s];
      AddsAre(e, t, init, p);
      KnownSnoc(e, t, init, s, p);
    }
  }

  lemma KnownSnoc(e: Session, t: Tree, init: seq<Staged>, s: Staged, p: Path)
    requires KnownAdd(e, init, p) && (p in Adds(e, init) ==> p !in t)
    requires Fresh1(e, t + Adds(e, init), s)
    ensures KnownAdd(e, init + [s], p) && (p in Adds(e, init + [s]) ==> p !in t)
  {
    OfSnoc(init, s);
    AddsSnoc(e, init, s);
    Adds1Are(e, t + Adds(e, init), s, p);
    assert (init + [s])[..|init|] == init;
  }

  lemma Adds1Are(e: Session, t: Tree, s: Staged, p: Path)
    requires Fresh1(e, t, s)
    ensures p in Adds1(e, s) <==> p in s.createdDirs || s.tmp == Some(p)
    ensures p in Adds1(e, s) ==> p !in t
    ensures s.tmp == Some(p) ==> Adds1(e, s)[p].File? && p !in s.createdDirs
    ensures p in s.createdDirs ==> Adds1(e, s)[p] == Dir
  {
  }

  // The directories of the whole batch were made one after another.
  lemma {:induction false} AllStacked(e: Session, t: Tree, staged: seq<Staged>)
    requires FreshOnto(e, t, staged)
    ensures Stacked(t, AllDirs(staged))
  {
    if staged != [] {
      var init, s := staged[..|staged| - 1], staged[|staged| - 1];
      AllStacked(e, t, init);
      forall d | d in AllDirs(init)
        ensures d in t + Adds(e, init)
      {
        AddsAre(e, t, init, d);
      }
      StackedTogether(t, t + Adds(e, init), AllDirs(init), s.createdDirs);
    }
  }

  lemma StackedTogether(t: Tree, over: Tree, a: seq<Path>, b: seq<Path>)
    requires Stacked(t, a) && Stacked(over, b)
    requires forall q :: q in t ==> q in over
    requires forall d :: d in a ==> d in over
    ensures Stacked(t, a + b)
  {
    forall i, j | 0 <= i < j < |a + b|
      ensures (a + b)[i] != [] && (a + b)[i] != (a + b)[j] && Parent((a + b)[i]) != (a + b)[j]
    {
      if i < |a| && j >= |a| {
        assert a[i] in over && b[j - |a|] in b;
      }
    }
  }

  // ---------------------------------------------------------------- discarding

  lemma {:induction false} RemoveTempsIs(t: Tree, staged: seq<Staged>)
    requires forall p :: p in TempsOf(staged) && p in t ==> t[p].File?
    ensures RemoveTemps(t, staged) == t - TempsOf(staged)
  {
    if staged == [] {
      assert t - TempsOf([]) == t;
    } else {
      var init, s := staged[..|staged| - 1], staged[|staged| - 1];
      assert staged == init + [s];
      OfSnoc(init, s);
      RemoveTempsIs(t, init);
      if s.tmp.Some? {
        assert t - TempsOf(init) - {s.tmp.value} == t - TempsOf(staged);
      }
    }
  }

  lemma TempsAreFiles(e: Session, t: Tree, staged: seq<Staged>, p: Path)
    requires FreshOnto(e, t, staged)
    ensures p in TempsOf(staged) && p in t + Adds(e, staged) ==> (t + Adds(e, staged))[p].File?
    ensures p in (t + Adds(e, staged)) - TempsOf(staged) <==> p in WithDirs(t, AllDirs(staged))
    ensures p in WithDirs(t, AllDirs(staged)) ==> (t + Adds(e, staged))[p] == WithDirs(t, AllDirs(staged))[p]
  {
    AddsAre(e, t, staged, p);
  }

  lemma TempsGone(e: Session, t: Tree, staged: seq<Staged>)
    requires FreshOnto(e, t, staged)
    ensures RemoveTemps(t + Adds(e, staged), staged) == WithDirs(t, AllDirs(staged))
  {
    var over, dirs := t + Adds(e, staged), WithDirs(t, AllDirs(staged));
    forall p: Path
      ensures p in TempsOf(staged) && p in over ==> over[p].File?
      ensures p in over - TempsOf(staged) <==> p in dirs
      ensures p in dirs ==> over[p] == dirs[p]
    {
      TempsAreFiles(e, t, staged, p);
    }
    RemoveTempsIs(over, staged);
    SameMap(over, TempsOf(staged), dirs);
  }

  lemma SameMap(t: Tree, gone: set<Path>, other: Tree)
    requires forall p :: p in t - gone <==> p in other
    requires forall p :: p in other ==> t[p] == other[p]
    ensures t - gone == other
  {
  }

  // NO RESIDUE: discarding what was staged gives back the tree it was staged onto.
  lemma DiscardUndoes(e: Session, t: Tree, staged: seq<Staged>)
    requires FreshOnto(e, t, staged)
    ensures Discarded(t + Adds(e, staged), staged) == t
  {
    TempsGone(e, t, staged);
    AllStacked(e, t, staged);
    DirsUndone(t, AllDirs(staged));
  }

  lemma PlusTogether(a: Tree, b: Tree, c: Tree)
    ensures a + (b + c) == a + b + c
  {
  }

  lemma AddsSnoc(e: Session, staged: seq<Staged>, s: Staged)
    ensures Adds(e, staged + [s]) == Adds(e, staged) + Adds1(e, s)
  {
    assert (staged + [s])[..|staged|] == staged;
  }

  lemma {:induction false} AddsAppend(e: Session, a: seq<Staged>, b: seq<Staged>)
    ensures Adds(e, a + b) == Adds(e, a) + Adds(e, b)
    decreases |b|
  {
    if b == [] {
      assert a + b == a;
    } else {
      var init, s := b[..|b| - 1], b[|b| - 1];
      assert b == init + [s] && a + b == a + init + [s];
      AddsAppend(e, a, init);
      AddsSnoc(e, a + init, s);
      AddsSnoc(e, init, s);
      PlusTogether(Adds(e, a), Adds(e, init), Adds1(e, s));
    }
  }

  lemma FreshSnoc(e: Session, t: Tree, staged: seq<Staged>, s: Staged)
    ensures FreshOnto(e, t, staged + [s]) <==> FreshOnto(e, t, staged) && Fresh1(e, t + Adds(e, staged), s)
  {
    assert (staged + [s])[..|staged|] == staged;
  }

  lemma {:induction false} FreshAppend(e: Session, t: Tree, a: seq<Staged>, b: seq<Staged>)
    requires FreshOnto(e, t, a + b)
    ensures FreshOnto(e, t, a) && FreshOnto(e, t + Adds(e, a), b)
    decreases |b|
  {
    if b == [] {
      assert a + b == a;
    } else {
      var init, s := b[..|b| - 1], b[|b| - 1];
      assert b == init + [s];
      Bytes.Reassociate(a, init, [s]);
      FreshSnoc(e, t, a + init, s);
      FreshAppend(e, t, a, init);
      FreshAppendLast(e, t, a, init, s);
    }
  }

  lemma FreshAppendLast(e: Session, t: Tree, a: seq<Staged>, init: seq<Staged>, s: Staged)
    requires Fresh1(e, t + Adds(e, a + init), s)
    requires FreshOnto(e, t + Adds(e, a), init)
    ensures FreshOnto(e, t + Adds(e, a), init + [s])
  {
    AddsAppend(e, a, init);
    PlusTogether(t, Adds(e, a), Adds(e, init));
    FreshSnoc(e, t + Adds(e, a), init, s);
  }

  // A path that was there, or that staging stays clear of.
  ghost predicate ClearOf(t: Tree, staged: seq<Staged>, q: Path) {
    q in t || (q !in AllDirs(staged) && q !in TempsOf(staged) && (q != [] ==> Parent(q) !in AllDirs(staged)))
  }

  // What is fresh on one tree is fresh on another that has nothing in its way.
  lemma {:induction false} FreshElsewhere(e: Session, t: Tree, other: Tree, staged: seq<Staged>)
    requires FreshOnto(e, t, staged)
    requires forall q :: q in other ==> ClearOf(t, staged, q)
    ensures FreshOnto(e, other, staged)
  {
    if staged != [] {
      var init, s := staged[..|staged| - 1], staged[|staged| - 1];
      assert staged == init + [s];
      OfSnoc(init, s);
      forall q | q in other
        ensures ClearOf(t, init, q)
      {
        assert ClearOf(t, staged, q);
      }
      FreshElsewhere(e, t, other, init);
      Fresh1Elsewhere(e, t + Adds(e, init), other + Adds(e, init), staged, s, t, Adds(e, init), other);
    }
  }

  lemma Fresh1Elsewhere(e: Session, over: Tree, there: Tree, staged: seq<Staged>, s: Staged, t: Tree, adds: Tree, other: Tree)
    requires Fresh1(e, over, s) && over == t + adds && there == other + adds
    requires forall q :: q in other ==> ClearOf(t, staged, q)
    requires forall d :: d in s.createdDirs ==> d in AllDirs(staged)
    requires s.tmp.Some? ==> s.tmp.value in TempsOf(staged)
    ensures Fresh1(e, there, s)
  {
    forall q | q in there
      ensures q !in s.createdDirs && s.tmp != Some(q) && (q != [] ==> Parent(q) !in s.createdDirs)
    {
      if q in adds {
        assert q in over;
      } else {
        assert ClearOf(t, staged, q);
      }
    }
  }

  // ---------------------------------------------------------------- committing

  // What committing some leaves alone, it leaves alone whether it is there or not.
  lemma {:induction false} CommittedBeside(t: Tree, more: Tree, staged: seq<Staged>)
    requires more.Keys !! DestsOf(staged) && more.Keys !! TempsOf(staged)
    ensures Committed(t + more, staged) == Committed(t, staged) + more
  {
    if staged != [] {
      var init, s := staged[..|staged| - 1], staged[|staged| - 1];
      assert staged == init + [s];
      OfSnoc(init, s);
      CommittedBeside(t, more, init);
      Commit1Beside(Committed(t, init), more, s);
    }
  }

  lemma Commit1Beside(t: Tree, more: Tree, s: Staged)
    requires s.dest !in more && (s.tmp.Some? ==> s.tmp.value !in more)
    ensures Commit1(t + more, s) == Commit1(t, s) + more
  {
    if s.remove {
      assert t + more - {s.dest} == t - {s.dest} + more;
    } else if s.tmp.Some? && s.tmp.value in t {
      var tmp := s.tmp.value;
      assert (t + more)[tmp] == t[tmp];
      assert (t + more - {tmp})[s.dest := t[tmp]] == (t - {tmp})[s.dest := t[tmp]] + more;
    }
  }

  // Committing puts nothing anywhere but at the destinations of restores.
  lemma {:induction false} CommittedKeys(t: Tree, staged: seq<Staged>, q: Path)
    requires q in Committed(t, staged)
    ensures q in t || exists i :: 0 <= i < |staged| && !staged[i].remove && staged[i].dest == q
  {
    if staged != [] {
      var init, s := staged[..|staged| - 1], staged[|staged| - 1];
      if q in Committed(t, init) {
        CommittedKeys(t, init, q);
      }
    }
  }

  lemma CommittedSnoc(t: Tree, staged: seq<Staged>, s: Staged)
    ensures Committed(t, staged + [s]) == Commit1(Committed(t, staged), s)
  {
    assert (staged + [s])[..|staged|] == staged;
  }
}
