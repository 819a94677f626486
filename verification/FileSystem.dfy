/**
 A file system as the program sees it: a tree of directories and regular files, whose
 operations may fail at any time. Links, permissions and open handles are not here.
 */
module FileSystem {
  import opened Wrappers

  // The names on the way down from the root.
  type Path = seq<string>

  datatype Node = Dir | File(content: string, mode: nat)

  type Tree = map<Path, Node>

  function Parent(p: Path): Path
    requires p != []
  {
    p[..|p| - 1]
  }

  predicate Above(a: Path, p: Path) {
    |a| < |p| && p[..|a|] == a
  }

  // Everything stands in a directory that is there.
  ghost predicate WellFormed(t: Tree) {
    && [] in t && t[[]] == Dir
    && forall p :: p in t && p != [] ==> Parent(p) in t && t[Parent(p)] == Dir
  }

  predicate Empty(t: Tree, p: Path) {
    forall q | q in t :: q != [] ==> Parent(q) != p
  }

  function WithDirs(t: Tree, ds: seq<Path>): Tree {
    t + map d | d in ds :: Dir
  }

  // The directories os.MkdirAll would have to make, shallowest first.
  function Missing(t: Tree, dir: Path): seq<Path>
    decreases |dir|
  {
    if dir in t || dir == [] then [] else Missing(t, Parent(dir)) + [dir]
  }

  // What the nearest existing part of the way is.
  predicate OnDir(t: Tree, dir: Path)
    decreases |dir|
  {
    if dir in t then t[dir] == Dir else dir != [] && OnDir(t, Parent(dir))
  }

  // os.Remove, if nothing else goes wrong: a directory only if it is empty.
  function Removed(t: Tree, p: Path): Tree {
    if p in t && (t[p].File? || Empty(t, p)) then t - {p} else t
  }

  class Disk {
    var tree: Tree

    // How often an operation has failed that had every reason to succeed.
    ghost var faults: nat

    constructor (t: Tree)
      ensures tree == t
    {
      tree := t;
      faults := 0;
    }

    // os.MkdirAll, which is taken to change nothing if it fails.
    method MkdirAll(dir: Path) returns (ok: bool)
      modifies this
      ensures !ok ==> tree == old(tree)
      ensures ok ==> OnDir(old(tree), dir) && tree == WithDirs(old(tree), Missing(old(tree), dir))
      ensures faults >= old(faults) && (faults == old(faults) ==> (ok <==> OnDir(old(tree), dir)))
    {
      ok := *;
      faults := if ok then faults else faults + 1;
      if !OnDir(tree, dir) {
        ok := false;
      }
      if ok {
        tree := WithDirs(tree, Missing(tree, dir));
      }
    }

    // os.CreateTemp: some name that begins with the prefix and is not taken.
    method CreateTemp(dir: Path, prefix: string) returns (path: Option<Path>)
      modifies this
      ensures path.None? ==> tree == old(tree)
      ensures path.Some? ==>
                && path.value != [] && Parent(path.value) == dir && prefix <= path.value[|path.value| - 1]
                && path.value !in old(tree) && dir in old(tree) && old(tree)[dir] == Dir
                && tree == old(tree)[path.value := File("", 384)]
      ensures faults >= old(faults)
      ensures faults == old(faults) ==> (path.Some? <==> dir in old(tree) && old(tree)[dir] == Dir)
    {
      var rest: string := *;
      var p := dir + [prefix + rest];
      var fails: bool := *;
      if fails || p in tree || dir !in tree || tree[dir] != Dir {
        faults := faults + 1;
        return None;
      }
      tree := tree[p := File("", 384)];
      return Some(p);
    }

    // A write that fails may have written anything.
    method Write(p: Path, content: string) returns (ok: bool)
      requires p in tree && tree[p].File?
      modifies this
      ensures tree.Keys == old(tree).Keys && tree[p].File? && tree[p].mode == old(tree)[p].mode
      ensures tree == old(tree)[p := tree[p]]
      ensures ok ==> tree[p].content == content
      ensures faults >= old(faults) && (faults == old(faults) ==> ok)
    {
      ok := *;
      faults := if ok then faults else faults + 1;
      var some: string := *;
      tree := tree[p := File(if ok then content else some, tree[p].mode)];
    }

    method Chmod(p: Path, mode: nat) returns (ok: bool)
      requires p in tree && tree[p].File?
      modifies this
      ensures tree == if ok then old(tree)[p := File(old(tree)[p].content, mode)] else old(tree)
      ensures faults >= old(faults) && (faults == old(faults) ==> ok)
    {
      ok := *;
      faults := if ok then faults else faults + 1;
      if ok {
        tree := tree[p := File(tree[p].content, mode)];
      }
    }

    // Whether what is to be read can be read.
    method CanRead() returns (ok: bool)
      modifies this
      ensures tree == old(tree)
      ensures faults >= old(faults) && (faults == old(faults) ==> ok)
    {
      ok := *;
      faults := if ok then faults else faults + 1;
    }

    // os.Remove where a missing file counts as done.
    method Remove(p: Path) returns (ok: bool)
      modifies this
      ensures ok ==> tree == old(tree) - {p}
      ensures !ok ==> tree == old(tree)
      ensures faults >= old(faults)
      ensures faults == old(faults) ==> (ok <==> !(p in old(tree) && old(tree)[p] == Dir && !Empty(old(tree), p)))
    {
      ok := *;
      faults := if ok then faults else faults + 1;
      if p in tree && tree[p] == Dir && !Empty(tree, p) {
        ok := false;
      }
      if ok {
        tree := tree - {p};
      }
    }

    // os.Remove as cleanup uses it: what can be removed is, and the answer is not looked at.
    method RemoveQuietly(p: Path)
      modifies this
      ensures tree == Removed(old(tree), p) && faults == old(faults)
    {
      tree := Removed(tree, p);
    }

    // os.WriteFile of a new file in a directory that is there.
    method WriteNew(p: Path, content: string, mode: nat) returns (ok: bool)
      requires p != [] && p !in tree && Parent(p) in tree && tree[Parent(p)] == Dir
      modifies this
      ensures ok ==> tree == old(tree)[p := File(content, mode)]
      ensures !ok ==> tree == old(tree) || exists some :: tree == old(tree)[p := File(some, mode)]
      ensures faults >= old(faults) && (faults == old(faults) ==> ok)
    {
      ok := *;
      faults := if ok then faults else faults + 1;
      var begun: bool := *;
      var some: string := *;
      if ok {
        tree := tree[p := File(content, mode)];
      } else if begun {
        tree := tree[p := File(some, mode)];
      }
    }

    // os.RemoveAll, its answer not looked at: taken to succeed.
    method RemoveAll(top: Path)
      modifies this
      ensures tree == Without(old(tree), top) && faults == old(faults)
    {
      tree := Without(tree, top);
    }

    // os.Rename of a file or a directory. It replaces a file by a file, or an empty directory
    // by a directory, without asking.
    method RenameTree(from: Path, onto: Path) returns (ok: bool)
      modifies this
      ensures ok ==>
                && from in old(tree) && !Within(from, onto) && onto != []
                && Parent(onto) in old(tree) && old(tree)[Parent(onto)] == Dir
                && tree == Moved(old(tree) - {onto}, from, onto)
      ensures !ok ==> tree == old(tree)
      ensures faults >= old(faults) && (faults == old(faults) ==> (ok <==> CanRename(old(tree), from, onto)))
    {
      ok := *;
      faults := if ok then faults else faults + 1;
      if !CanRename(tree, from, onto) {
        ok := false;
      }
      if ok {
        tree := Moved(tree - {onto}, from, onto);
      }
    }

    // os.Rename of a file onto a path that is not a directory.
    method Rename(from: Path, onto: Path) returns (ok: bool)
      modifies this
      ensures ok ==> from in old(tree) && tree == (old(tree) - {from})[onto := old(tree)[from]]
      ensures !ok ==> tree == old(tree)
      ensures faults >= old(faults)
      ensures faults == old(faults) ==> (ok <==> from in old(tree) && !(onto in old(tree) && old(tree)[onto] == Dir))
    {
      ok := *;
      faults := if ok then faults else faults + 1;
      if from !in tree || (onto in tree && tree[onto] == Dir) {
        ok := false;
      }
      if ok {
        tree := (tree - {from})[onto := tree[from]];
      }
    }
  }

  // ---------------------------------------------------------------- moving and removing trees

  // Nothing about the tree forbids the rename.
  predicate CanRename(t: Tree, from: Path, onto: Path) {
    && from in t && onto != [] && !Within(from, onto) && Parent(onto) in t && t[Parent(onto)] == Dir
    && (onto in t ==> t[onto].Dir? == t[from].Dir? && Empty(t, onto))
  }

  predicate Within(top: Path, p: Path) {
    |top| <= |p| && p[..|top|] == top
  }

  function Without(t: Tree, top: Path): Tree {
    map p | p in t && !Within(top, p) :: t[p]
  }

  // Where something below `from` goes when `from` becomes `onto`.
  function Relocated(from: Path, onto: Path, p: Path): Path
    requires Within(from, p)
  {
    onto + p[|from|..]
  }

  // What stands at and below `from`, at and below `onto` instead.
  function Carried(t: Tree, from: Path, onto: Path): Tree {
    map q | q in (set p | p in t && Within(from, p) :: Relocated(from, onto, p)) && Within(onto, q) && from + q[|onto|..] in t
      :: t[from + q[|onto|..]]
  }

  function Moved(t: Tree, from: Path, onto: Path): Tree {
    Without(t, from) + Carried(t, from, onto)
  }

  // More directories on the way do not close it.
  lemma {:induction false} WayStaysOpen(t: Tree, more: Tree, dir: Path)
    requires OnDir(t, dir)
    requires forall n :: 0 <= n <= |dir| && dir[..n] in more ==> more[dir[..n]] == Dir
    ensures OnDir(t + more, dir)
    decreases |dir|
  {
    assert dir[..|dir|] == dir;
    if dir !in t && dir !in more {
      forall n | 0 <= n <= |Parent(dir)| && Parent(dir)[..n] in more
        ensures more[Parent(dir)[..n]] == Dir
      {
        assert Parent(dir)[..n] == dir[..n];
      }
      WayStaysOpen(t, more, Parent(dir));
    }
  }

  // ---------------------------------------------------------------- making directories

  lemma {:induction false} MissingAre(t: Tree, dir: Path)
    ensures forall i :: 0 <= i < |Missing(t, dir)| ==> IsMissing(t, dir, Missing(t, dir)[i])
    ensures forall i, j :: 0 <= i < j < |Missing(t, dir)| ==> |Missing(t, dir)[i]| < |Missing(t, dir)[j]|
    decreases |dir|
  {
    if dir !in t && dir != [] {
      MissingAre(t, Parent(dir));
    }
  }

  ghost predicate IsMissing(t: Tree, dir: Path, d: Path) {
    d != [] && d !in t && |d| <= |dir| && dir[..|d|] == d
  }

  // Once they are made, everything on the way is a directory.
  lemma {:induction false} WayIsMade(t: Tree, dir: Path, n: nat)
    requires WellFormed(t) && OnDir(t, dir) && n <= |dir|
    ensures dir[..n] in WithDirs(t, Missing(t, dir)) && WithDirs(t, Missing(t, dir))[dir[..n]] == Dir
    ensures dir[..n] in t ==> t[dir[..n]] == Dir
    decreases |dir|
  {
    assert dir[..|dir|] == dir;
    if n == |dir| {
      if dir !in t && dir != [] {
        assert dir in Missing(t, dir);
      }
    } else if dir in t {
      assert Parent(dir) in t;
      WayIsMade(t, Parent(dir), n);
      assert Parent(dir)[..n] == dir[..n];
      assert Missing(t, Parent(dir)) == [] && Missing(t, dir) == [];
    } else {
      WayIsMade(t, Parent(dir), n);
      assert Parent(dir)[..n] == dir[..n];
      MissingAre(t, dir);
    }
  }
}
