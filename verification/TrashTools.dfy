/**
 The three tools (daemon/fileops.go: builtinDelete, builtinMove, builtinRestore) and any run
 of them.
 */
module TrashTools {
  import opened Wrappers
  import opened FileSystem
  import opened Trash

  ghost predicate Unchanged(t: Tree, u: Tree) {
    forall q :: q in t ==> q in u && u[q] == t[q]
  }

  // Everything but what stood at or below `from` is as it was.
  ghost predicate OthersUnchanged(t: Tree, u: Tree, from: Path) {
    forall q :: q in t && !Within(from, q) ==> q in u && u[q] == t[q]
  }

  // An id no entry has: newTrashID makes it of the time and random bytes.
  ghost predicate NewId(t: Tree, id: string) {
    forall q :: q in t ==> !Within(EntryDir(id), q)
  }

  // ---------------------------------------------------------------- the shared steps

  // MkdirAll and then the rename, to a place where nothing stands.
  method CarryTo(disk: Disk, from: Path, onto: Path) returns (ok: bool)
    requires Good(disk.tree) && from != [] && onto != [] && onto !in disk.tree && !Within(from, onto)
    requires !Own(onto) || |Parent(onto)| <= 3
    requires forall p :: p in disk.tree && Within(from, p) && disk.tree[p].File? ==> !IsRecord(p)
    requires forall p :: Within(onto, p) ==> !IsRecord(p)
    requires Own(onto) ==> |onto| == 4 && onto[..2] == TRASH_ROOT && onto[3] == "item"
    requires !Own(from) || (|from| == 4 && from[3] == "item")
    modifies disk
    ensures Good(disk.tree) && SameFiles(old(disk.tree), disk.tree)
    ensures !ok ==> OnlyDirsAdded(old(disk.tree), disk.tree, Parent(onto))
    ensures ok ==> exists mid {:trigger OnlyDirsAdded(old(disk.tree), mid, Parent(onto))} ::
                     OnlyDirsAdded(old(disk.tree), mid, Parent(onto)) && CanCarry(mid, from, onto)
                     && CarriedOver(mid, disk.tree, from, onto)
    ensures disk.faults >= old(disk.faults)
    ensures disk.faults == old(disk.faults) ==> (ok <==> from in old(disk.tree) && OnDir(old(disk.tree), Parent(onto)))
  {
    ghost var t := disk.tree;
    ok := disk.MkdirAll(Parent(onto));
    if !ok {
      SamePlaces(t, disk.tree);
      return;
    }
    ghost var mid := disk.tree;
    MkdirAdds(t, Parent(onto));
    DirsKeepFiles(t, mid, Parent(onto));
    DirsKeepTidy(t, mid, Parent(onto));
    assert !Within(onto, Parent(onto));
    NothingAt(mid, onto);
    NothingInTheWay(t, mid, from, onto);
    ok := disk.RenameTree(from, onto);
    if ok {
      CarriesOver(mid, from, onto);
      AddedHoldsNoRecord(t, mid, from, Parent(onto));
      MovedKeepsFiles(mid, from, onto);
      SameFilesTwice(t, mid, disk.tree);
      CarriedIsTidy(mid, disk.tree, from, onto);
    }
  }

  lemma NothingInTheWay(t: Tree, mid: Tree, from: Path, onto: Path)
    requires onto != [] && onto !in mid && !Within(from, onto)
    requires OnlyDirsAdded(t, mid, Parent(onto))
    requires Parent(onto) in mid && mid[Parent(onto)] == Dir
    ensures CanRename(mid, from, onto) <==> from in t
  {
    assert Within(from, Parent(onto)) ==> Within(from, onto) by {
      assert |from| < |onto| ==> onto[..|from|] == Parent(onto)[..|from|];
    }
  }

  lemma AddedHoldsNoRecord(t: Tree, mid: Tree, from: Path, dir: Path)
    requires OnlyDirsAdded(t, mid, dir)
    requires forall p :: p in t && Within(from, p) && t[p].File? ==> !IsRecord(p)
    ensures forall p :: p in mid && Within(from, p) && mid[p].File? ==> !IsRecord(p)
  {
  }

  lemma CarriedIsTidy(t: Tree, u: Tree, from: Path, onto: Path)
    requires Tidy(t) && CarriedOver(t, u, from, onto)
    requires Own(onto) ==> |onto| == 4 && onto[..2] == TRASH_ROOT && onto[3] == "item"
    requires onto != []
    ensures Tidy(u)
  {
    forall p | p in u && |p| >= 3 && p[..2] == TRASH_ROOT
      ensures |p| == 3 ==> u[p] == Dir
      ensures |p| > 3 ==> p[3] == "item" || (|p| == 4 && p[3] == "entry.json" && u[p].File?)
    {
      TidyAt(t, u, from, onto, p);
    }
  }

  lemma TidyAt(t: Tree, u: Tree, from: Path, onto: Path, p: Path)
    requires Tidy(t) && CarriedOver(t, u, from, onto) && onto != []
    requires Own(onto) ==> |onto| == 4 && onto[..2] == TRASH_ROOT && onto[3] == "item"
    requires p in u && |p| >= 3 && p[..2] == TRASH_ROOT
    ensures |p| == 3 ==> u[p] == Dir
    ensures |p| > 3 ==> p[3] == "item" || (|p| == 4 && p[3] == "entry.json" && u[p].File?)
  {
    if Within(onto, p) {
      BelowTheItem(onto, p);
    } else {
      assert p in t && u[p] == t[p];
    }
  }

  lemma BelowTheItem(onto: Path, p: Path)
    requires onto != [] && Within(onto, p) && |p| >= 3 && p[..2] == TRASH_ROOT
    requires Own(onto) ==> |onto| == 4 && onto[3] == "item"
    ensures |p| > 3 && p[3] == "item"
  {
    assert p[0] == onto[0];
    assert p[3] == onto[3];
  }

  // ---------------------------------------------------------------- move_path

  // What a move asks of the tree.
  ghost predicate MayMove(r: Rules, t: Tree, from: Path, onto: Path) {
    && Allowed(r, from) && Allowed(r, onto) && onto !in t && !Within(from, onto)
    && from in t && !r.holdsRefused(t, from) && OnDir(t, Parent(onto))
  }

  // builtinMove. While no operation fails of itself, it moves exactly what it may.
  method MovePath(r: Rules, disk: Disk, from: Path, onto: Path) returns (ok: bool)
    requires Good(disk.tree)
    modifies disk
    ensures Good(disk.tree) && SameFiles(old(disk.tree), disk.tree)
    ensures !ok ==> Unchanged(old(disk.tree), disk.tree)
    ensures ok ==> onto !in old(disk.tree) && OthersUnchanged(old(disk.tree), disk.tree, from)
    ensures ok ==> forall q :: q in old(disk.tree) && Within(from, q) ==>
                     Relocated(from, onto, q) in disk.tree && disk.tree[Relocated(from, onto, q)] == old(disk.tree)[q]
                     && q !in disk.tree
    ensures disk.faults >= old(disk.faults)
    ensures disk.faults == old(disk.faults) ==> (ok <==> MayMove(r, old(disk.tree), from, onto))
  {
    SamePlaces(disk.tree, disk.tree);
    if !Allowed(r, from) || !Allowed(r, onto) || onto in disk.tree || Within(from, onto) || from !in disk.tree
       || r.holdsRefused(disk.tree, from) {
      return false;
    }
    OutsideTheTrash(from);
    OutsideTheTrash(onto);
    ok := CarryTo(disk, from, onto);
  }

  // Below a path that is not the program's own, nothing is.
  lemma OutsideTheTrash(top: Path)
    requires top != [] && !Own(top)
    ensures forall q :: Within(top, q) ==> !Own(q) && !IsRecord(q)
  {
    forall q | Within(top, q)
      ensures !Own(q) && !IsRecord(q)
    {
      assert q[0] == top[0];
    }
  }

  // ---------------------------------------------------------------- delete_path

  // What a deleted thing looks like: gone from its place, whole in the trash, on record.
  ghost predicate InTrash(r: Rules, t: Tree, u: Tree, p: Path, id: string) {
    && (forall q :: q in t && Within(p, q) ==>
          q !in u && Relocated(p, ItemPath(id), q) in u && u[Relocated(p, ItemPath(id), q)] == t[q])
    && RecordPath(id) in u && u[RecordPath(id)].File? && u[RecordPath(id)].content == r.write(p)
    && (forall q :: q in u && Within(ItemPath(id), q) ==> p + q[|ItemPath(id)|..] in t)
    && (forall q :: q in u && !Own(q) ==> q in t)
  }

  lemma OwnPaths(id: string)
    ensures forall q :: Within(EntryDir(id), q) ==> Own(q)
    ensures Own(EntryDir(id)) && Own(RecordPath(id)) && Own(ItemPath(id))
    ensures Within(EntryDir(id), RecordPath(id)) && Within(EntryDir(id), ItemPath(id))
    ensures IsRecord(RecordPath(id)) && Parent(ItemPath(id)) == EntryDir(id) == Parent(RecordPath(id))
    ensures ItemPath(id)[..2] == TRASH_ROOT && EntryDir(id)[..2] == TRASH_ROOT
    ensures forall q :: Within(ItemPath(id), q) ==> !IsRecord(q) && Within(EntryDir(id), q)
  {
    forall q | Within(EntryDir(id), q)
      ensures Own(q)
    {
      assert q[0] == EntryDir(id)[0];
    }
    forall q | Within(ItemPath(id), q)
      ensures !IsRecord(q) && Within(EntryDir(id), q)
    {
      assert q[3] == ItemPath(id)[3];
      assert q[..3] == ItemPath(id)[..3] == EntryDir(id);
    }
  }

  // The entry's folder made, and the record in it; or nothing but folders.
  method OpenEntry(r: Rules, disk: Disk, p: Path, id: string) returns (ok: bool)
    requires Good(disk.tree) && NewId(disk.tree, id)
    modifies disk
    ensures Good(disk.tree) && SameFiles(old(disk.tree), disk.tree) && Unchanged(old(disk.tree), disk.tree)
    ensures forall q :: q in disk.tree && q !in old(disk.tree) ==> Own(q)
    ensures ok ==> RecordPath(id) in disk.tree && disk.tree[RecordPath(id)].File? && disk.tree[RecordPath(id)].content == r.write(p)
    ensures ok ==> EntryDir(id) in disk.tree && disk.tree[EntryDir(id)] == Dir
    ensures ok ==> forall q :: q in disk.tree && Within(EntryDir(id), q) ==> q == EntryDir(id) || q == RecordPath(id)
    ensures disk.faults >= old(disk.faults)
    ensures disk.faults == old(disk.faults) ==> (ok <==> OnDir(old(disk.tree), EntryDir(id)))
  {
    ghost var t := disk.tree;
    OwnPaths(id);
    ok := disk.MkdirAll(EntryDir(id));
    if !ok {
      SamePlaces(t, disk.tree);
      return;
    }
    ghost var mid := disk.tree;
    MkdirAdds(t, EntryDir(id));
    DirsKeepTidy(t, mid, EntryDir(id));
    EntryIsEmpty(t, mid, id);
    ok := disk.WriteNew(RecordPath(id), r.write(p), 384);
    if !ok {
      RecordAddsLittle(t, mid, disk.tree, id);
      Cleared(t, mid, disk.tree, id);
      disk.RemoveAll(EntryDir(id));
    } else {
      RecordAddsLittle(t, mid, disk.tree, id);
    }
  }

  lemma EntryIsEmpty(t: Tree, mid: Tree, id: string)
    requires NewId(t, id) && OnlyDirsAdded(t, mid, EntryDir(id))
    ensures forall q :: q in mid && Within(EntryDir(id), q) ==> q == EntryDir(id)
    ensures forall q :: q in mid && q !in t ==> Own(q)
  {
    forall q | q in mid && q !in t
      ensures Own(q)
    {
      assert q[0] == EntryDir(id)[0];
    }
  }

  // The record is no file of the user's.
  lemma RecordAddsLittle(t: Tree, mid: Tree, u: Tree, id: string)
    requires Good(t) && WellFormed(mid) && Tidy(mid) && OnlyDirsAdded(t, mid, EntryDir(id))
    requires forall q :: q in mid && Within(EntryDir(id), q) ==> q == EntryDir(id)
    requires EntryDir(id) in mid && mid[EntryDir(id)] == Dir
    requires u == mid || (RecordPath(id) in u && u[RecordPath(id)].File? && u == mid[RecordPath(id) := u[RecordPath(id)]])
    ensures Good(u) && SameFiles(t, u) && Unchanged(t, u)
    ensures forall q :: q in u && Within(EntryDir(id), q) ==> q == EntryDir(id) || q == RecordPath(id)
  {
    OwnPaths(id);
    SamePlaces(t, u);
    assert RecordPath(id) !in mid;
    assert RecordPath(id)[3] == "entry.json" && |RecordPath(id)| == 4;
    forall q | q in u && q != []
      ensures Parent(q) in u && u[Parent(q)] == Dir
    {
      assert q == RecordPath(id) || q in mid;
    }
  }

  // Taking the entry out again leaves the folders above it.
  lemma Cleared(t: Tree, mid: Tree, u: Tree, id: string)
    requires Good(t) && OnlyDirsAdded(t, mid, EntryDir(id)) && NewId(t, id) && Good(u)
    requires u == mid || (RecordPath(id) in u && u[RecordPath(id)].File? && u == mid[RecordPath(id) := u[RecordPath(id)]])
    ensures var v := Without(u, EntryDir(id)); Good(v) && SameFiles(t, v) && Unchanged(t, v)
    ensures forall q :: q in Without(u, EntryDir(id)) && q !in t ==> Own(q)
  {
    var v := Without(u, EntryDir(id));
    OwnPaths(id);
    WithoutIsGood(u, EntryDir(id));
    SamePlaces(t, v);
    forall q | q in v && q !in t
      ensures Own(q)
    {
      assert q[0] == EntryDir(id)[0];
    }
  }

  lemma WithoutIsGood(t: Tree, top: Path)
    requires Good(t) && top != []
    ensures Good(Without(t, top))
  {
    forall q | q in Without(t, top) && q != []
      ensures Parent(q) in Without(t, top) && Without(t, top)[Parent(q)] == Dir
    {
      OutsideUp(top, q);
    }
  }

  // What a delete asks of the tree.
  ghost predicate MayDelete(r: Rules, t: Tree, p: Path, id: string) {
    Allowed(r, p) && p in t && !r.holdsRefused(t, p) && OnDir(t, EntryDir(id))
  }

  // builtinDelete, moveToTrash. While no operation fails of itself, it deletes exactly what it
  // may.
  method DeletePath(r: Rules, disk: Disk, p: Path, id: string) returns (ok: bool)
    requires Good(disk.tree) && NewId(disk.tree, id)
    modifies disk
    ensures Good(disk.tree) && SameFiles(old(disk.tree), disk.tree)
    ensures OthersUnchanged(old(disk.tree), disk.tree, p)
    ensures !ok ==> Unchanged(old(disk.tree), disk.tree) && forall q :: q in disk.tree && !Own(q) ==> q in old(disk.tree)
    ensures ok ==> Allowed(r, p) && p in old(disk.tree) && InTrash(r, old(disk.tree), disk.tree, p, id)
    ensures disk.faults >= old(disk.faults)
    ensures disk.faults == old(disk.faults) ==> (ok <==> MayDelete(r, old(disk.tree), p, id))
  {
    ghost var t := disk.tree;
    SamePlaces(t, t);
    if !Allowed(r, p) || p !in disk.tree || r.holdsRefused(disk.tree, p) {
      return false;
    }
    ok := OpenEntry(r, disk, p, id);
    if !ok {
      return;
    }
    ghost var mid := disk.tree;
    OwnPaths(id);
    OutsideTheTrash(p);
    CanTrash(mid, p, id);
    NothingAt(mid, ItemPath(id));
    ok := disk.RenameTree(p, ItemPath(id));
    if ok {
      CarriesOver(mid, p, ItemPath(id));
      MovedKeepsFiles(mid, p, ItemPath(id));
      SameFilesTwice(t, mid, disk.tree);
      CarriedIsTidy(mid, disk.tree, p, ItemPath(id));
      TrashedIs(r, t, mid, disk.tree, p, id);
    } else {
      Abandoned(t, mid, id);
      disk.RemoveAll(EntryDir(id));
    }
  }

  lemma Abandoned(t: Tree, mid: Tree, id: string)
    requires Good(mid) && Unchanged(t, mid) && NewId(t, id)
    requires forall q :: q in mid && q !in t ==> Own(q)
    requires forall q :: q in mid && Within(EntryDir(id), q) ==> q == EntryDir(id) || q == RecordPath(id)
    requires EntryDir(id) in mid && mid[EntryDir(id)] == Dir && SameFiles(t, mid)
    ensures var v := Without(mid, EntryDir(id));
            Good(v) && SameFiles(t, v) && Unchanged(t, v) && forall q :: q in v && !Own(q) ==> q in t
  {
    var v := Without(mid, EntryDir(id));
    OwnPaths(id);
    WithoutIsGood(mid, EntryDir(id));
    SamePlaces(mid, v);
    SameFilesTwice(t, mid, v);
  }

  lemma TrashedIs(r: Rules, t: Tree, mid: Tree, u: Tree, p: Path, id: string)
    requires p != [] && !Own(p) && Unchanged(t, mid) && CarriedOver(mid, u, p, ItemPath(id))
    requires forall q :: q in mid && q !in t ==> Own(q)
    requires RecordPath(id) in mid && mid[RecordPath(id)].File? && mid[RecordPath(id)].content == r.write(p)
    ensures OthersUnchanged(t, u, p) && InTrash(r, t, u, p, id)
  {
    OwnPaths(id);
    OutsideTheTrash(p);
    forall q | q in u && Within(ItemPath(id), q)
      ensures p + q[|ItemPath(id)|..] in t
    {
      assert Within(p, p + q[|ItemPath(id)|..]);
    }
  }

  lemma CanTrash(mid: Tree, p: Path, id: string)
    requires WellFormed(mid) && p in mid && p != [] && !Own(p)
    requires forall q :: q in mid && Within(EntryDir(id), q) ==> q == EntryDir(id) || q == RecordPath(id)
    requires EntryDir(id) in mid && mid[EntryDir(id)] == Dir
    ensures CanCarry(mid, p, ItemPath(id))
  {
    OwnPaths(id);
    assert ItemPath(id)[3] != RecordPath(id)[3];
    OutsideTheTrash(p);
  }

  // ---------------------------------------------------------------- restore_deleted

  // The entry's item is back, whole; the rest is as it was, but for the entry itself and for
  // folders on the way.
  ghost predicate PutBack(t: Tree, u: Tree, original: Path, id: string) {
    && original != [] && original !in t
    && (forall q :: q in t && !Within(EntryDir(id), q) ==> q in u && u[q] == t[q])
    && (forall q :: q in t && Within(ItemPath(id), q) ==>
          Relocated(ItemPath(id), original, q) in u && u[Relocated(ItemPath(id), original, q)] == t[q])
    && (forall q :: q in u && q !in t ==>
          (Within(original, q) && ItemPath(id) + q[|original|..] in t) || (u[q] == Dir && Within(q, Parent(original))))
    && (forall q :: q in u ==> !Within(EntryDir(id), q))
  }

  // What the record of an entry says of where its item was.
  function RecordedAt(r: Rules, t: Tree, id: string): Option<Path> {
    if RecordPath(id) in t && t[RecordPath(id)].File? then r.read(t[RecordPath(id)].content) else None
  }

  // What putting back asks of the tree: a record that can be read, the item, and a free place.
  ghost predicate MayPutBack(r: Rules, t: Tree, id: string) {
    var original := RecordedAt(r, t, id);
    && original.Some? && Allowed(r, original.value) && original.value !in t
    && ItemPath(id) in t && OnDir(t, Parent(original.value))
  }

  // builtinRestore, restoreFromTrash. While no operation fails of itself, it puts back exactly
  // what it may.
  method RestorePath(r: Rules, disk: Disk, id: string) returns (ok: bool, original: Path)
    requires Good(disk.tree)
    modifies disk
    ensures Good(disk.tree) && SameFiles(old(disk.tree), disk.tree)
    ensures !ok ==> Unchanged(old(disk.tree), disk.tree)
    ensures ok ==>
              && RecordedAt(r, old(disk.tree), id) == Some(original)
              && Allowed(r, original) && PutBack(old(disk.tree), disk.tree, original, id)
    ensures disk.faults >= old(disk.faults)
    ensures disk.faults == old(disk.faults) ==> (ok <==> MayPutBack(r, old(disk.tree), id))
  {
    ghost var t := disk.tree;
    SamePlaces(t, t);
    original := [];
    if RecordPath(id) !in disk.tree || disk.tree[RecordPath(id)].Dir? {
      return false, [];
    }
    var read := r.read(disk.tree[RecordPath(id)].content);
    if read.None? || !Allowed(r, read.value) || read.value in disk.tree {
      return false, [];
    }
    original := read.value;
    OwnPaths(id);
    OutsideTheTrash(original);
    NotBelowItem(original, id);
    ok := CarryTo(disk, ItemPath(id), original);
    if ok {
      ghost var u := disk.tree;
      ghost var mid :| OnlyDirsAdded(t, mid, Parent(original)) && CanCarry(mid, ItemPath(id), original)
                       && CarriedOver(mid, u, ItemPath(id), original);
      EntryCleared(t, mid, u, original, id);
      disk.RemoveAll(EntryDir(id));
    }
  }

  lemma NotBelowItem(p: Path, id: string)
    requires p != [] && !Own(p)
    ensures !Within(ItemPath(id), p) && !Within(EntryDir(id), p)
  {
    OwnPaths(id);
  }

  // Only the record is left of the entry.
  lemma EntryCleared(t: Tree, mid: Tree, u: Tree, original: Path, id: string)
    requires Good(t) && Good(u) && SameFiles(t, u) && original != [] && !Own(original) && original !in t
    requires OnlyDirsAdded(t, mid, Parent(original)) && CarriedOver(mid, u, ItemPath(id), original)
    ensures var v := Without(u, EntryDir(id)); Good(v) && SameFiles(t, v) && PutBack(t, v, original, id)
  {
    var v := Without(u, EntryDir(id));
    WithoutIsGood(u, EntryDir(id));
    forall q | q in u && Within(EntryDir(id), q) && u[q].File?
      ensures IsRecord(q)
    {
      OnlyRecordLeft(mid, u, original, id, q);
    }
    SamePlaces(u, v);
    SameFilesTwice(t, u, v);
    PutBackIs(t, mid, u, original, id);
  }

  lemma OnlyRecordLeft(mid: Tree, u: Tree, original: Path, id: string, q: Path)
    requires Tidy(u) && original != [] && !Own(original) && CarriedOver(mid, u, ItemPath(id), original)
    requires q in u && Within(EntryDir(id), q) && u[q].File?
    ensures IsRecord(q)
  {
    OwnPaths(id);
    OutsideTheTrash(original);
    assert q[..2] == EntryDir(id)[..2] == TRASH_ROOT;
    assert q in mid;
    InItem(id, q);
  }

  lemma InItem(id: string, q: Path)
    requires Within(EntryDir(id), q) && |q| > 3
    ensures q[3] == "item" ==> Within(ItemPath(id), q)
  {
    assert q[..4] == q[..3] + [q[3]];
  }

  lemma PutBackIs(t: Tree, mid: Tree, u: Tree, original: Path, id: string)
    requires original != [] && !Own(original) && original !in t
    requires OnlyDirsAdded(t, mid, Parent(original)) && CarriedOver(mid, u, ItemPath(id), original)
    ensures PutBack(t, Without(u, EntryDir(id)), original, id)
  {
    OwnPaths(id);
    OutsideTheTrash(original);
    var v := Without(u, EntryDir(id));
    forall q | q in t && Within(ItemPath(id), q)
      ensures Relocated(ItemPath(id), original, q) in v && v[Relocated(ItemPath(id), original, q)] == t[q]
    {
      BackAgain(ItemPath(id), original, q);
    }
    forall q | q in v && q !in t
      ensures (Within(original, q) && ItemPath(id) + q[|original|..] in t) || (v[q] == Dir && Within(q, Parent(original)))
    {
      NewBySteps(t, mid, u, original, id, q);
    }
  }

  lemma NewBySteps(t: Tree, mid: Tree, u: Tree, original: Path, id: string, q: Path)
    requires original != [] && !Own(original)
    requires OnlyDirsAdded(t, mid, Parent(original)) && CarriedOver(mid, u, ItemPath(id), original)
    requires q in u && q !in t
    ensures (Within(original, q) && ItemPath(id) + q[|original|..] in t) || (u[q] == Dir && Within(q, Parent(original)))
  {
    OwnPaths(id);
    if Within(original, q) {
      var p := ItemPath(id) + q[|original|..];
      assert Within(ItemPath(id), p) && p in mid;
      OwnNotOnTheWay(p, original);
    } else {
      assert q in mid;
    }
  }

  lemma OwnNotOnTheWay(p: Path, original: Path)
    requires original != [] && !Own(original)
    ensures Own(p) ==> !Within(p, Parent(original))
  {
    if p != [] && Within(p, Parent(original)) {
      assert Parent(original)[..|p|][0] == original[0];
    }
  }

  // ---------------------------------------------------------------- there and back

  // DELETING AND PUTTING BACK gives the same tree outside the program's own folder; and both
  // go through, while no operation fails of itself, whenever the delete may be made.
  method DeleteAndPutBack(r: Rules, disk: Disk, p: Path, id: string) returns (ok: bool)
    requires Good(disk.tree) && NewId(disk.tree, id) && RecordsRead(r)
    modifies disk
    ensures SameFiles(old(disk.tree), disk.tree)
    ensures ok ==> forall q :: !Own(q) ==>
                     (q in disk.tree <==> q in old(disk.tree)) && (q in disk.tree ==> disk.tree[q] == old(disk.tree)[q])
    ensures disk.faults == old(disk.faults) ==> (ok <==> MayDelete(r, old(disk.tree), p, id))
  {
    ghost var t := disk.tree;
    ok := DeletePath(r, disk, p, id);
    if ok {
      ghost var u := disk.tree;
      PlaceIsFree(r, t, u, p, id);
      var original;
      ok, original := RestorePath(r, disk, id);
      SameFilesTwice(t, u, disk.tree);
      if ok {
        assert original == p;
        forall q | !Own(q)
          ensures q in disk.tree <==> q in t
          ensures q in disk.tree ==> disk.tree[q] == t[q]
        {
          ThereAndBack(r, t, u, disk.tree, p, id, q);
        }
      }
    }
  }

  // What was just deleted may be put back.
  lemma PlaceIsFree(r: Rules, t: Tree, u: Tree, p: Path, id: string)
    requires RecordsRead(r) && WellFormed(t) && Allowed(r, p) && p in t
    requires OthersUnchanged(t, u, p) && InTrash(r, t, u, p, id)
    ensures MayPutBack(r, u, id)
  {
    assert Within(p, p) && Relocated(p, ItemPath(id), p) == ItemPath(id);
    assert Parent(p) in t && !Within(p, Parent(p));
    assert RecordedAt(r, u, id) == Some(p);
  }

  lemma ThereAndBack(r: Rules, t: Tree, u: Tree, v: Tree, p: Path, id: string, q: Path)
    requires WellFormed(t) && p != [] && !Own(p) && p in t && !Own(q)
    requires OthersUnchanged(t, u, p) && InTrash(r, t, u, p, id) && PutBack(u, v, p, id)
    ensures q in v <==> q in t
    ensures q in v ==> v[q] == t[q]
  {
    OwnPaths(id);
    if Within(p, q) {
      BackAgain(p, ItemPath(id), q);
      var at := Relocated(p, ItemPath(id), q);
      assert at == ItemPath(id) + q[|p|..] && Relocated(ItemPath(id), p, at) == q;
    }
    if q in v && Within(q, Parent(p)) {
      assert p[..|q|] == q;
      WayDown(t, p, |q|);
    }
  }

  // Everything above something that is there is there.
  lemma {:induction false} WayDown(t: Tree, p: Path, n: nat)
    requires WellFormed(t) && p in t && n <= |p|
    ensures p[..n] in t
    decreases |p|
  {
    if n == |p| {
      assert p[..n] == p;
    } else {
      WayDown(t, Parent(p), n);
      assert Parent(p)[..n] == p[..n];
    }
  }

  // ---------------------------------------------------------------- any run of them

  datatype Op = Delete(path: Path, id: string) | Move(from: Path, onto: Path) | Restore(id: string)

  // NOTHING IS LOST: over any run of the tools, whichever steps fail, there are as many of
  // every file, in the tree and the trash together, as there were.
  method RunTools(r: Rules, disk: Disk, ops: seq<Op>)
    requires Good(disk.tree)
    modifies disk
    ensures Good(disk.tree) && SameFiles(old(disk.tree), disk.tree)
  {
    ghost var t := disk.tree;
    SamePlaces(t, t);
    for i := 0 to |ops|
      invariant Good(disk.tree) && SameFiles(t, disk.tree)
    {
      ghost var u := disk.tree;
      match ops[i] {
        case Delete(path, id) =>
          var taken := IdIsTaken(disk, id);
          if !taken {
            var ok := DeletePath(r, disk, path, id);
          }
        case Move(from, onto) =>
          var ok := MovePath(r, disk, from, onto);
        case Restore(id) =>
          var ok, original := RestorePath(r, disk, id);
      }
      SameFilesTwice(t, u, disk.tree);
    }
  }

  // A new id is one no entry has.
  method IdIsTaken(disk: Disk, id: string) returns (taken: bool)
    requires WellFormed(disk.tree)
    ensures !taken ==> NewId(disk.tree, id)
  {
    taken := EntryDir(id) in disk.tree;
    if !taken {
      NothingAt(disk.tree, EntryDir(id));
    }
  }
}
