/**
 Deleting, moving and putting back files (daemon/fileops.go). A delete is a move into a trash
 the tools cannot reach; nothing that was there is lost or overwritten by any of them.
 */
module Trash {
  import opened Wrappers
  import opened FileSystem

  const HIDDEN := ".mochiii"
  const TRASH_ROOT: Path := [HIDDEN, "trash"]

  // Which paths the tools refuse besides the program's own folder and the project itself,
  // which folders hold something they refuse, and how an entry's record is written and read.
  datatype Rules = Rules(refuses: Path -> bool, holdsRefused: (Tree, Path) -> bool, write: Path -> string, read: string -> Option<Path>)

  // What was written can be read.
  ghost predicate RecordsRead(r: Rules) {
    forall p :: r.read(r.write(p)) == Some(p)
  }

  function EntryDir(id: string): Path { TRASH_ROOT + [id] }
  function RecordPath(id: string): Path { EntryDir(id) + ["entry.json"] }
  function ItemPath(id: string): Path { EntryDir(id) + ["item"] }

  // In the program's own folder.
  predicate Own(p: Path) {
    p != [] && p[0] == HIDDEN
  }

  // resolveOpPath: the path may be changed.
  predicate Allowed(r: Rules, p: Path) {
    p != [] && !Own(p) && !r.refuses(p)
  }

  predicate IsRecord(p: Path) {
    |p| == 4 && p[..2] == TRASH_ROOT && p[3] == "entry.json"
  }

  // The trash holds entries only: a record, and the item itself.
  ghost predicate Tidy(t: Tree) {
    && (forall p :: p in t && |p| > 3 && p[..2] == TRASH_ROOT ==> p[3] == "item" || (|p| == 4 && p[3] == "entry.json" && t[p].File?))
    && (forall p :: p in t && |p| == 3 && p[..2] == TRASH_ROOT ==> t[p] == Dir)
  }

  // ---------------------------------------------------------------- what is kept

  // Where that very file stands, records left out.
  ghost function Places(t: Tree, f: Node): set<Path> {
    set p | p in t && t[p] == f && !IsRecord(p)
  }

  // As many of every file as before.
  ghost predicate SameFiles(t: Tree, u: Tree) {
    forall f: Node {:trigger Places(t, f)} {:trigger Places(u, f)} :: f.File? ==> |Places(t, f)| == |Places(u, f)|
  }

  lemma SameFilesTwice(t: Tree, u: Tree, v: Tree)
    requires SameFiles(t, u) && SameFiles(u, v)
    ensures SameFiles(t, v)
  {
    forall f: Node | f.File?
      ensures |Places(t, f)| == |Places(v, f)|
    {
      assert |Places(t, f)| == |Places(u, f)|;
    }
  }

  // Directories made or removed, and records, are no files.
  lemma SamePlaces(t: Tree, u: Tree)
    requires forall p :: p in t && t[p].File? && !IsRecord(p) ==> p in u && u[p] == t[p]
    requires forall p :: p in u && u[p].File? && !IsRecord(p) ==> p in t && t[p] == u[p]
    ensures SameFiles(t, u)
  {
    forall f: Node | f.File?
      ensures Places(t, f) == Places(u, f)
    {
    }
  }

  ghost function Image(s: set<Path>, from: Path, onto: Path): set<Path> {
    set p | p in s && Within(from, p) :: Relocated(from, onto, p)
  }

  lemma {:induction false} ImageSize(s: set<Path>, from: Path, onto: Path)
    requires forall p :: p in s ==> Within(from, p)
    ensures |Image(s, from, onto)| == |s|
    decreases |s|
  {
    if s == {} {
      assert Image(s, from, onto) == {};
    } else {
      var x :| x in s;
      var rest := s - {x};
      ImageSize(rest, from, onto);
      forall p | p in rest
        ensures Relocated(from, onto, p) != Relocated(from, onto, x)
      {
        CarriedApart(from, onto, p, x);
      }
      assert Image(s, from, onto) == Image(rest, from, onto) + {Relocated(from, onto, x)};
    }
  }

  lemma CarriedApart(from: Path, onto: Path, p: Path, x: Path)
    requires Within(from, p) && Within(from, x)
    ensures Relocated(from, onto, p) == Relocated(from, onto, x) ==> p == x
  {
    BackAgain(from, onto, p);
    BackAgain(from, onto, x);
  }

  lemma BackAgain(from: Path, onto: Path, p: Path)
    requires Within(from, p)
    ensures Within(onto, Relocated(from, onto, p)) && from + Relocated(from, onto, p)[|onto|..] == p
  {
    assert Relocated(from, onto, p)[|onto|..] == p[|from|..];
  }

  // What stands where after a move.
  lemma MovedAt(t: Tree, from: Path, onto: Path, q: Path)
    requires forall p :: p in t ==> !Within(onto, p)
    requires !Within(from, onto)
    ensures q in Moved(t, from, onto) <==>
            (q in t && !Within(from, q)) || (Within(onto, q) && from + q[|onto|..] in t)
    ensures q in t && !Within(from, q) ==> Moved(t, from, onto)[q] == t[q]
    ensures Within(onto, q) && from + q[|onto|..] in t ==> Moved(t, from, onto)[q] == t[from + q[|onto|..]]
  {
    if Within(onto, q) && from + q[|onto|..] in t {
      var p := from + q[|onto|..];
      assert Within(from, p) && p[|from|..] == q[|onto|..] && Relocated(from, onto, p) == q;
    }
    if q in Carried(t, from, onto) {
      var p :| p in t && Within(from, p) && Relocated(from, onto, p) == q;
      assert q[|onto|..] == p[|from|..];
    }
  }

  // Moving to where nothing stands loses and copies nothing.
  lemma MovedKeepsFiles(t: Tree, from: Path, onto: Path)
    requires forall p :: p in t ==> !Within(onto, p)
    requires !Within(from, onto)
    requires forall p :: p in t && Within(from, p) && t[p].File? ==> !IsRecord(p)
    requires forall p :: Within(onto, p) ==> !IsRecord(p)
    ensures SameFiles(t, Moved(t, from, onto))
  {
    forall f: Node | f.File?
      ensures |Places(t, f)| == |Places(Moved(t, from, onto), f)|
    {
      MovedPlaces(t, from, onto, f);
    }
  }

  lemma MovedPlaces(t: Tree, from: Path, onto: Path, f: Node)
    requires f.File? && !Within(from, onto)
    requires forall p :: p in t ==> !Within(onto, p)
    requires forall p :: p in t && Within(from, p) && t[p].File? ==> !IsRecord(p)
    requires forall p :: Within(onto, p) ==> !IsRecord(p)
    ensures |Places(t, f)| == |Places(Moved(t, from, onto), f)|
  {
    var under := set p | p in Places(t, f) && Within(from, p);
    ImageSize(under, from, onto);
    forall q
      ensures q in Places(Moved(t, from, onto), f) <==> q in Places(t, f) - under || q in Image(under, from, onto)
      ensures q in Image(under, from, onto) ==> q !in Places(t, f)
    {
      PlaceAfter(t, from, onto, f, under, q);
    }
    SwappedSize(Places(t, f), under, Image(under, from, onto), Places(Moved(t, from, onto), f));
  }

  lemma SwappedSize(before: set<Path>, gone: set<Path>, come: set<Path>, after: set<Path>)
    requires gone <= before && |come| == |gone| && come !! before
    requires forall q :: q in after <==> q in before - gone || q in come
    ensures |after| == |before|
  {
    assert after == (before - gone) + come;
  }

  lemma PlaceAfter(t: Tree, from: Path, onto: Path, f: Node, under: set<Path>, q: Path)
    requires f.File? && !Within(from, onto)
    requires forall p :: p in t ==> !Within(onto, p)
    requires forall p :: p in t && Within(from, p) && t[p].File? ==> !IsRecord(p)
    requires forall p :: Within(onto, p) ==> !IsRecord(p)
    requires forall p :: p in under <==> p in Places(t, f) && Within(from, p)
    ensures q in Places(Moved(t, from, onto), f) <==> q in Places(t, f) - under || q in Image(under, from, onto)
    ensures q in Image(under, from, onto) ==> q !in Places(t, f)
  {
    MovedAt(t, from, onto, q);
    if Within(onto, q) {
      var p := from + q[|onto|..];
      assert Within(from, p) && p[|from|..] == q[|onto|..] && Relocated(from, onto, p) == q;
      assert p in t && t[p] == f ==> p in under;
    }
    if q in Image(under, from, onto) {
      var p :| p in under && Within(from, p) && Relocated(from, onto, p) == q;
      BackAgain(from, onto, p);
    }
  }

  // ---------------------------------------------------------------- form

  ghost predicate Good(t: Tree) {
    WellFormed(t) && Tidy(t)
  }

  lemma {:induction false} NothingWithin(t: Tree, top: Path, p: Path)
    requires WellFormed(t) && top !in t && Within(top, p)
    ensures p !in t
    decreases |p|
  {
    if p in t && |p| > |top| {
      assert Parent(p)[..|top|] == top;
      NothingWithin(t, top, Parent(p));
    } else {
      assert |p| == |top| ==> p == top;
    }
  }

  // Making directories adds directories on the way, and nothing else.
  ghost predicate OnlyDirsAdded(t: Tree, u: Tree, dir: Path) {
    && (forall q :: q in t ==> q in u && u[q] == t[q])
    && (forall q :: q in u && q !in t ==> u[q] == Dir && q != [] && Within(q, dir))
  }

  lemma MkdirAdds(t: Tree, dir: Path)
    requires WellFormed(t) && OnDir(t, dir)
    ensures var u := WithDirs(t, Missing(t, dir));
            OnlyDirsAdded(t, u, dir) && WellFormed(u) && dir in u && u[dir] == Dir
  {
    var u := WithDirs(t, Missing(t, dir));
    AddedOnTheWay(t, dir);
    forall q | q in u && q != []
      ensures Parent(q) in u && u[Parent(q)] == Dir
    {
      if q !in t {
        assert dir[..|q| - 1] == Parent(q);
        WayIsMade(t, dir, |q| - 1);
      }
    }
    WayIsMade(t, dir, |dir|);
    assert dir[..|dir|] == dir;
  }

  lemma AddedOnTheWay(t: Tree, dir: Path)
    ensures OnlyDirsAdded(t, WithDirs(t, Missing(t, dir)), dir)
  {
    MissingAre(t, dir);
    forall q | q in Missing(t, dir)
      ensures q !in t && q != [] && Within(q, dir)
    {
      var i :| 0 <= i < |Missing(t, dir)| && Missing(t, dir)[i] == q;
      assert IsMissing(t, dir, q);
    }
  }

  lemma DirsKeepFiles(t: Tree, u: Tree, dir: Path)
    requires OnlyDirsAdded(t, u, dir)
    ensures SameFiles(t, u)
  {
    SamePlaces(t, u);
  }

  lemma DirsKeepTidy(t: Tree, u: Tree, dir: Path)
    requires Tidy(t) && OnlyDirsAdded(t, u, dir)
    requires !Own(dir) || |dir| <= 3
    ensures Tidy(u)
  {
    forall q | q in u && q !in t && |q| >= 3
      ensures q[..2] != TRASH_ROOT || |q| == 3
    {
      assert q[0] == dir[0];
    }
  }

  lemma MovedKeepsForm(t: Tree, from: Path, onto: Path)
    requires WellFormed(t) && from != [] && from in t && !Within(from, onto)
    requires onto != [] && onto !in t && Parent(onto) in t && t[Parent(onto)] == Dir
    ensures WellFormed(Moved(t, from, onto))
  {
    var u := Moved(t, from, onto);
    forall p | p in t
      ensures !Within(onto, p)
    {
      if Within(onto, p) {
        NothingWithin(t, onto, p);
      }
    }
    MovedAt(t, from, onto, []);
    forall q | q in u && q != []
      ensures Parent(q) in u && u[Parent(q)] == Dir
    {
      ParentMoved(t, from, onto, q);
    }
  }

  lemma OutsideUp(top: Path, q: Path)
    requires q != []
    ensures Within(top, Parent(q)) ==> Within(top, q)
  {
    assert |top| <= |q| - 1 ==> q[..|top|] == Parent(q)[..|top|];
  }

  lemma ParentMoved(t: Tree, from: Path, onto: Path, q: Path)
    requires WellFormed(t) && from != [] && from in t && !Within(from, onto)
    requires forall p :: p in t ==> !Within(onto, p)
    requires onto != [] && Parent(onto) in t && t[Parent(onto)] == Dir
    requires q in Moved(t, from, onto) && q != []
    ensures Parent(q) in Moved(t, from, onto) && Moved(t, from, onto)[Parent(q)] == Dir
  {
    MovedAt(t, from, onto, q);
    if q in t && !Within(from, q) {
      OutsideUp(from, q);
      MovedAt(t, from, onto, Parent(q));
    } else if q == onto {
      OutsideUp(from, onto);
      MovedAt(t, from, onto, Parent(q));
    } else {
      CarriedParent(t, from, onto, q);
    }
  }

  lemma CarriedParent(t: Tree, from: Path, onto: Path, q: Path)
    requires WellFormed(t) && !Within(from, onto)
    requires forall p :: p in t ==> !Within(onto, p)
    requires Within(onto, q) && q != onto && from + q[|onto|..] in t
    ensures q != [] && Parent(q) in Moved(t, from, onto) && Moved(t, from, onto)[Parent(q)] == Dir
  {
    var p := from + q[|onto|..];
    assert |q| > |onto|;
    assert Parent(p) == from + Parent(q)[|onto|..];
    assert Within(onto, Parent(q));
    MovedAt(t, from, onto, Parent(q));
  }

  // ---------------------------------------------------------------- renaming to where nothing is

  // The one step all three operations turn on.
  ghost predicate CanCarry(t: Tree, from: Path, onto: Path) {
    && WellFormed(t) && from != [] && from in t && !Within(from, onto)
    && onto != [] && onto !in t && Parent(onto) in t && t[Parent(onto)] == Dir
  }

  lemma NothingAt(t: Tree, onto: Path)
    requires WellFormed(t) && onto !in t
    ensures forall p :: p in t ==> !Within(onto, p)
    ensures t - {onto} == t
  {
    forall p | p in t
      ensures !Within(onto, p)
    {
      if Within(onto, p) {
        NothingWithin(t, onto, p);
      }
    }
  }

  // Where everything is afterwards: what moved, at its new place, and all else as it was.
  ghost predicate CarriedOver(t: Tree, u: Tree, from: Path, onto: Path) {
    && (forall q :: q in t && !Within(from, q) ==> q in u && u[q] == t[q])
    && (forall q :: q in t && Within(from, q) ==> q !in u && Relocated(from, onto, q) in u && u[Relocated(from, onto, q)] == t[q])
    && (forall q :: q in u && !Within(onto, q) ==> q in t)
    && (forall q :: q in u && Within(onto, q) ==> from + q[|onto|..] in t)
  }

  lemma CarriesOver(t: Tree, from: Path, onto: Path)
    requires CanCarry(t, from, onto)
    ensures CarriedOver(t, Moved(t, from, onto), from, onto) && WellFormed(Moved(t, from, onto))
  {
    NothingAt(t, onto);
    MovedKeepsForm(t, from, onto);
    forall q
      ensures q in t && !Within(from, q) ==> q in Moved(t, from, onto) && Moved(t, from, onto)[q] == t[q]
      ensures q in Moved(t, from, onto) && !Within(onto, q) ==> q in t
      ensures q in Moved(t, from, onto) && Within(onto, q) ==> from + q[|onto|..] in t
    {
      MovedAt(t, from, onto, q);
    }
    forall q | q in t && Within(from, q)
      ensures q !in Moved(t, from, onto)
      ensures Relocated(from, onto, q) in Moved(t, from, onto) && Moved(t, from, onto)[Relocated(from, onto, q)] == t[q]
    {
      MovedAt(t, from, onto, q);
      BackAgain(from, onto, q);
      MovedAt(t, from, onto, Relocated(from, onto, q));
    }
  }
}
