/**
 Undoing an apply run as one batch (daemon/apply_cmd.go): everything that can fail is done
 beside the files first, and only then is anything made visible.
 */
module RestoreBatch {
  import opened Wrappers
  import opened FileSystem

  const STAGING_PREFIX := ".mochiii-undo-"

  // What the batch goes by: where each path of the session leads (None if it is refused), the
  // snapshots that can be read, and the files the run created.
  datatype Session = Session(dest: string -> Option<Path>, before: map<string, Node>, created: set<string>)

  datatype Staged = Staged(rel: string, dest: Path, tmp: Option<Path>, remove: bool, createdDirs: seq<Path>)

  predicate IsStagingName(p: Path) {
    p != [] && STAGING_PREFIX <= p[|p| - 1]
  }

  ghost predicate SnapshotsAreFiles(e: Session) {
    forall rel :: rel in e.before ==> e.before[rel].File?
  }

  // ---------------------------------------------------------------- what staging adds

  function Adds1(e: Session, s: Staged): Tree {
    (map d | d in s.createdDirs :: Dir) + if s.tmp.Some? && s.rel in e.before then map[s.tmp.value := e.before[s.rel]] else map[]
  }

  function Adds(e: Session, staged: seq<Staged>): Tree {
    if staged == [] then map[] else Adds(e, staged[..|staged| - 1]) + Adds1(e, staged[|staged| - 1])
  }

  // What stageRestore promises of the revert it staged, in the tree it found.
  ghost predicate StagedOnto(e: Session, t: Tree, rel: string, s: Staged) {
    && s.rel == rel && e.dest(rel) == Some(s.dest) && s.dest != []
    && !(s.dest in t && t[s.dest] == Dir) && OnDir(t, Parent(s.dest))
    && s.remove == (rel in e.created)
    && (s.remove ==> s.createdDirs == [] && s.tmp.None?)
    && (!s.remove ==>
          && rel in e.before
          && s.createdDirs == Missing(t, Parent(s.dest))
          && s.tmp.Some? && IsStagingName(s.tmp.value) && Parent(s.tmp.value) == Parent(s.dest)
          && s.tmp.value !in t && s.tmp.value !in s.createdDirs)
  }

  // Nothing about the session or the tree forbids the revert.
  ghost predicate MayStage(e: Session, t: Tree, rel: string) {
    && e.dest(rel).Some? && e.dest(rel).value != []
    && !(e.dest(rel).value in t && t[e.dest(rel).value] == Dir) && OnDir(t, Parent(e.dest(rel).value))
    && (rel in e.created || rel in e.before)
  }

  ghost predicate StagedAll(e: Session, t: Tree, rels: seq<string>, staged: seq<Staged>) {
    |staged| <= |rels| &&
    forall i {:trigger StagedAt(e, t, rels, staged, i)} :: 0 <= i < |staged| ==> StagedAt(e, t, rels, staged, i)
  }

  ghost predicate StagedAt(e: Session, t: Tree, rels: seq<string>, staged: seq<Staged>, i: int)
    requires 0 <= i < |staged| <= |rels|
  {
    StagedOnto(e, t + Adds(e, staged[..i]), rels[i], staged[i])
  }

  // ---------------------------------------------------------------- what discarding takes away

  function RemoveDirs(t: Tree, ds: seq<Path>): Tree {
    if ds == [] then t else RemoveDirs(Removed(t, ds[|ds| - 1]), ds[..|ds| - 1])
  }

  function RemoveTemps(t: Tree, staged: seq<Staged>): Tree {
    if staged == [] then t
    else
      var rest := RemoveTemps(t, staged[..|staged| - 1]);
      var tmp := staged[|staged| - 1].tmp;
      if tmp.Some? then Removed(rest, tmp.value) else rest
  }

  function AllDirs(staged: seq<Staged>): seq<Path> {
    if staged == [] then [] else AllDirs(staged[..|staged| - 1]) + staged[|staged| - 1].createdDirs
  }

  function Discarded(t: Tree, staged: seq<Staged>): Tree {
    RemoveDirs(RemoveTemps(t, staged), AllDirs(staged))
  }

  // ---------------------------------------------------------------- what committing does

  function Commit1(t: Tree, s: Staged): Tree {
    if s.remove then t - {s.dest}
    else if s.tmp.Some? && s.tmp.value in t then (t - {s.tmp.value})[s.dest := t[s.tmp.value]]
    else t
  }

  function Committed(t: Tree, staged: seq<Staged>): Tree {
    if staged == [] then t else Commit1(Committed(t, staged[..|staged| - 1]), staged[|staged| - 1])
  }

  // ---------------------------------------------------------------- the operations

  // removeCreatedDirs
  method RemoveCreatedDirs(disk: Disk, dirs: seq<Path>)
    modifies disk
    ensures disk.tree == RemoveDirs(old(disk.tree), dirs) && disk.faults == old(disk.faults)
  {
    var i := |dirs|;
    assert dirs[..i] == dirs;
    while i > 0
      invariant 0 <= i <= |dirs|
      invariant RemoveDirs(disk.tree, dirs[..i]) == RemoveDirs(old(disk.tree), dirs)
      invariant disk.faults == old(disk.faults)
    {
      i := i - 1;
      assert dirs[..i + 1][..i] == dirs[..i];
      disk.RemoveQuietly(dirs[i]);
    }
  }

  lemma {:induction false} RemoveDirsAppend(t: Tree, a: seq<Path>, b: seq<Path>)
    ensures RemoveDirs(t, a + b) == RemoveDirs(RemoveDirs(t, b), a)
    decreases |b|
  {
    if b == [] {
      assert a + b == a;
    } else {
      assert (a + b)[..|a + b| - 1] == a + b[..|b| - 1];
      RemoveDirsAppend(Removed(t, b[|b| - 1]), a, b[..|b| - 1]);
    }
  }

  // discardStaged
  method DiscardStaged(disk: Disk, staged: seq<Staged>)
    modifies disk
    ensures disk.tree == Discarded(old(disk.tree), staged) && disk.faults == old(disk.faults)
  {
    for i := 0 to |staged|
      invariant disk.faults == old(disk.faults)
      invariant disk.tree == RemoveTemps(old(disk.tree), staged[..i])
    {
      assert staged[..i + 1][..i] == staged[..i];
      if staged[i].tmp.Some? {
        disk.RemoveQuietly(staged[i].tmp.value);
      }
    }
    assert staged[..|staged|] == staged;
    ghost var cleared := disk.tree;
    var i := |staged|;
    while i > 0
      invariant 0 <= i <= |staged|
      invariant disk.faults == old(disk.faults)
      invariant RemoveDirs(disk.tree, AllDirs(staged[..i])) == RemoveDirs(cleared, AllDirs(staged))
    {
      i := i - 1;
      assert staged[..i + 1][..i] == staged[..i];
      RemoveDirsAppend(disk.tree, AllDirs(staged[..i]), staged[i].createdDirs);
      RemoveCreatedDirs(disk, staged[i].createdDirs);
    }
  }

  // mkdirAllTracked
  method MkdirAllTracked(disk: Disk, dir: Path) returns (created: Option<seq<Path>>)
    modifies disk
    ensures created.None? ==> disk.tree == old(disk.tree)
    ensures created.Some? ==>
              && created.value == Missing(old(disk.tree), dir) && OnDir(old(disk.tree), dir)
              && disk.tree == WithDirs(old(disk.tree), created.value)
    ensures disk.faults >= old(disk.faults)
    ensures disk.faults == old(disk.faults) ==> (created.Some? <==> OnDir(old(disk.tree), dir))
  {
    var p := dir;
    var dirs: seq<Path> := [];
    while p != [] && p !in disk.tree
      invariant Missing(disk.tree, p) + dirs == Missing(disk.tree, dir)
      invariant disk.tree == old(disk.tree) && disk.faults == old(disk.faults)
      decreases |p|
    {
      dirs := [p] + dirs;
      p := Parent(p);
    }
    assert [] + dirs == dirs;
    var ok := disk.MkdirAll(dir);
    return if ok then Some(dirs) else None;
  }

  // ---------------------------------------------------------------- taking directories back out

  // Directories made one after another on top of `t`, each before what stands in it.
  ghost predicate Stacked(t: Tree, ds: seq<Path>) {
    && (forall i :: 0 <= i < |ds| ==> ds[i] != [] && ds[i] !in t)
    && (forall i, j :: 0 <= i < j < |ds| ==> ds[i] != ds[j] && Parent(ds[i]) != ds[j])
    && (forall q :: q in t && q != [] ==> Parent(q) !in ds)
  }

  lemma {:induction false} DirsUndone(t: Tree, ds: seq<Path>)
    requires Stacked(t, ds)
    ensures RemoveDirs(WithDirs(t, ds), ds) == t
    decreases |ds|
  {
    if ds == [] {
      assert WithDirs(t, ds) == t;
    } else {
      var init, last := ds[..|ds| - 1], ds[|ds| - 1];
      assert ds == init + [last];
      LastIsEmpty(t, init, last);
      LastGoes(t, init, last);
      DirsUndone(t, init);
    }
  }

  lemma LastGoes(t: Tree, init: seq<Path>, last: Path)
    requires last !in init && last !in t && Empty(WithDirs(t, init + [last]), last)
    ensures Removed(WithDirs(t, init + [last]), last) == WithDirs(t, init)
  {
    OneDirMore(t, init, last);
    TakenOut(WithDirs(t, init), last);
  }

  lemma OneDirMore(t: Tree, init: seq<Path>, last: Path)
    ensures WithDirs(t, init + [last]) == WithDirs(t, init)[last := Dir]
  {
    assert last in init + [last];
  }

  lemma TakenOut(t: Tree, p: Path)
    requires p !in t
    ensures t[p := Dir] - {p} == t
  {
  }

  lemma LastIsEmpty(t: Tree, init: seq<Path>, last: Path)
    requires Stacked(t, init + [last])
    ensures Stacked(t, init) && last !in init
    ensures Empty(WithDirs(t, init + [last]), last)
  {
    var ds := init + [last];
    forall i | 0 <= i < |init|
      ensures init[i] != last && init[i] != [] && Parent(init[i]) != last
    {
      assert ds[i] == init[i] && ds[|init|] == last;
    }
    forall q | q in WithDirs(t, ds) && q != []
      ensures Parent(q) != last
    {
      if q in t {
        assert last in ds;
      }
    }
    forall i, j | 0 <= i < j < |init|
      ensures init[i] != init[j] && init[i] != [] && Parent(init[i]) != init[j]
    {
      assert ds[i] == init[i] && ds[j] == init[j];
    }
  }

  lemma MissingIsStacked(t: Tree, dir: Path)
    requires WellFormed(t)
    ensures Stacked(t, Missing(t, dir))
  {
    MissingAre(t, dir);
    var ds := Missing(t, dir);
    forall i | 0 <= i < |ds|
      ensures ds[i] != [] && ds[i] !in t
    {
      assert IsMissing(t, dir, ds[i]);
    }
  }

  // ---------------------------------------------------------------- staging one file

  // stageRestore. Refused paths, unreadable snapshots and every failing write end it with
  // nothing left behind.
  method StageRestore(e: Session, disk: Disk, rel: string) returns (s: Option<Staged>)
    requires WellFormed(disk.tree) && SnapshotsAreFiles(e)
    modifies disk
    ensures s.None? ==> disk.tree == old(disk.tree)
    ensures s.Some? ==>
              StagedOnto(e, old(disk.tree), rel, s.value) && disk.tree == old(disk.tree) + Adds1(e, s.value)
    ensures disk.faults >= old(disk.faults)
    ensures disk.faults == old(disk.faults) ==> (s.Some? <==> MayStage(e, old(disk.tree), rel))
  {
    var remove := rel in e.created;
    if !remove && rel !in e.before {
      return None;
    }
    if e.dest(rel).None? {
      return None;
    }
    var dest := e.dest(rel).value;
    if dest == [] || (dest in disk.tree && disk.tree[dest] == Dir) || !OnDir(disk.tree, Parent(dest)) {
      return None;
    }
    if remove {
      assert disk.tree + Adds1(e, Staged(rel, dest, None, true, [])) == disk.tree;
      return Some(Staged(rel, dest, None, true, []));
    }
    s := StageContent(e, disk, rel, dest);
  }

  method StageContent(e: Session, disk: Disk, rel: string, dest: Path) returns (s: Option<Staged>)
    requires WellFormed(disk.tree) && SnapshotsAreFiles(e)
    requires e.dest(rel) == Some(dest) && dest != [] && !(dest in disk.tree && disk.tree[dest] == Dir)
    requires OnDir(disk.tree, Parent(dest)) && rel !in e.created && rel in e.before
    modifies disk
    ensures s.None? ==> disk.tree == old(disk.tree)
    ensures s.Some? ==>
              StagedOnto(e, old(disk.tree), rel, s.value) && disk.tree == old(disk.tree) + Adds1(e, s.value)
    ensures disk.faults >= old(disk.faults) && (disk.faults == old(disk.faults) ==> s.Some?)
  {
    ghost var t := disk.tree;
    var created := MkdirAllTracked(disk, Parent(dest));
    if created.None? {
      return None;
    }
    MissingIsStacked(t, Parent(dest));
    DirsUndone(t, created.value);
    WayIsMade(t, Parent(dest), |Parent(dest)|);
    assert Parent(dest)[..|Parent(dest)|] == Parent(dest);
    var tmp := disk.CreateTemp(Parent(dest), STAGING_PREFIX);
    if tmp.None? {
      RemoveCreatedDirs(disk, created.value);
      return None;
    }
    var ok := FillTemp(disk, tmp.value, e.before[rel], WithDirs(t, created.value));
    TempIsOver(t, created.value, tmp.value, disk.tree);
    var staged := Staged(rel, dest, tmp, false, created.value);
    if !ok {
      OneDiscarded(t, staged, disk.tree);
      DiscardStaged(disk, [staged]);
      return None;
    }
    StagedAdds(e, t, staged, disk.tree);
    return Some(staged);
  }

  lemma TempIsOver(t: Tree, dirs: seq<Path>, tmp: Path, now: Tree)
    requires tmp !in WithDirs(t, dirs)
    ensures tmp !in t && tmp !in dirs
  {
  }

  lemma StagedAdds(e: Session, t: Tree, s: Staged, now: Tree)
    requires s.tmp.Some? && s.rel in e.before
    requires now == WithDirs(t, s.createdDirs)[s.tmp.value := e.before[s.rel]]
    ensures now == t + Adds1(e, s)
  {
  }

  method FillTemp(disk: Disk, tmp: Path, snapshot: Node, ghost rest: Tree) returns (ok: bool)
    requires tmp in disk.tree && disk.tree[tmp].File? && snapshot.File?
    requires disk.tree == rest[tmp := disk.tree[tmp]]
    modifies disk
    ensures tmp in disk.tree && disk.tree[tmp].File? && disk.tree == rest[tmp := disk.tree[tmp]]
    ensures ok ==> disk.tree[tmp] == snapshot
    ensures disk.faults >= old(disk.faults) && (disk.faults == old(disk.faults) ==> ok)
  {
    ghost var was := disk.tree[tmp];
    ok := disk.Write(tmp, snapshot.content);
    UpdatedTwice(rest, tmp, was, disk.tree[tmp]);
    if ok {
      was := disk.tree[tmp];
      ok := disk.Chmod(tmp, snapshot.mode);
      UpdatedTwice(rest, tmp, was, disk.tree[tmp]);
    }
  }

  lemma UpdatedTwice(t: Tree, p: Path, a: Node, b: Node)
    ensures t[p := a][p := b] == t[p := b]
  {
  }

  lemma OneDiscarded(t: Tree, s: Staged, now: Tree)
    requires s.tmp.Some? && s.tmp.value !in WithDirs(t, s.createdDirs)
    requires s.tmp.value in now && now[s.tmp.value].File? && now == WithDirs(t, s.createdDirs)[s.tmp.value := now[s.tmp.value]]
    requires Stacked(t, s.createdDirs)
    ensures Discarded(now, [s]) == t
  {
    assert RemoveTemps(now, [s]) == Removed(now, s.tmp.value) == WithDirs(t, s.createdDirs);
    assert AllDirs([s]) == s.createdDirs;
    DirsUndone(t, s.createdDirs);
  }
}
