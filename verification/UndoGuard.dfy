/**
 The guard of an undo (daemon/apply_cmd.go, undoSessionPart): a file that differs from what
 the run left is set aside, and is put back only if the user insists.
 */
module UndoGuard {
  import opened Wrappers
  import opened FileSystem
  import opened RestoreBatch
  import opened UndoBatch

  ghost predicate NoRepeats(s: seq<string>) {
    forall i, j :: 0 <= i < j < |s| ==> s[i] != s[j]
  }

  // The session's files as the walk over before/ lists them: each once, none above another.
  ghost predicate Walked(at: string -> Path, rels: seq<string>) {
    && NoRepeats(rels)
    && (forall x :: x in rels ==> !IsStagingName(at(x)))
    && (forall x, y :: x in rels && y in rels && x != y ==> at(x) != at(y) && !Above(at(x), at(y)))
  }

  // Without links on the way, a path that is not refused leads where it says.
  ghost predicate NoLinks(e: Session, at: string -> Path, rels: seq<string>) {
    forall x :: x in rels && e.dest(x).Some? ==> e.dest(x).value == at(x)
  }

  // The file is as the run left it.
  predicate AsLeft(t: Tree, at: string -> Path, after: map<string, string>, rel: string) {
    rel in after && at(rel) in t && t[at(rel)].File? && t[at(rel)].content == after[rel]
  }

  ghost predicate SameAt(t0: Tree, t: Tree, p: Path) {
    (p in t <==> p in t0) && (p in t0 ==> t[p] == t0[p])
  }

  lemma SomeAreApart(e: Session, at: string -> Path, rels: seq<string>, some: seq<string>)
    requires Walked(at, rels) && NoLinks(e, at, rels)
    requires NoRepeats(some)
    requires forall x :: x in some ==> x in rels
    ensures DestsApart(e, some)
  {
    forall i | 0 <= i < |some| && e.dest(some[i]).Some?
      ensures !IsStagingName(e.dest(some[i]).value)
    {
      assert some[i] in some;
    }
    forall i, j | 0 <= i < |some| && 0 <= j < |some| && i != j && e.dest(some[i]).Some? && e.dest(some[j]).Some?
      ensures e.dest(some[i]).value != e.dest(some[j]).value && !Above(e.dest(some[i]).value, e.dest(some[j]).value)
    {
      assert some[i] in some && some[j] in some && some[i] != some[j];
    }
  }

  // The guard loop. A file whose recorded or present content cannot be read is guarded too.
  method SetAside(disk: Disk, at: string -> Path, after: map<string, string>, rels: seq<string>)
    returns (batch: seq<string>, guarded: seq<string>)
    requires NoRepeats(rels)
    modifies disk
    ensures disk.tree == old(disk.tree) && disk.faults >= old(disk.faults)
    ensures NoRepeats(batch + guarded)
    ensures forall x :: x in batch + guarded <==> x in rels
    ensures forall x :: x in batch ==> AsLeft(disk.tree, at, after, x)
    ensures disk.faults == old(disk.faults) ==> forall x :: x in guarded ==> !AsLeft(disk.tree, at, after, x)
  {
    batch, guarded := [], [];
    for i := 0 to |rels|
      invariant NoRepeats(batch + guarded)
      invariant forall x :: x in batch + guarded <==> x in rels[..i]
      invariant disk.tree == old(disk.tree) && disk.faults >= old(disk.faults)
      invariant forall x :: x in batch ==> AsLeft(disk.tree, at, after, x)
      invariant disk.faults == old(disk.faults) ==> forall x :: x in guarded ==> !AsLeft(disk.tree, at, after, x)
    {
      var readable := disk.CanRead();
      NewToThem(rels, i, batch, guarded);
      if readable && AsLeft(disk.tree, at, after, rels[i]) {
        batch := batch + [rels[i]];
      } else {
        guarded := guarded + [rels[i]];
      }
    }
    assert rels[..|rels|] == rels;
  }

  lemma NewToThem(rels: seq<string>, i: nat, batch: seq<string>, guarded: seq<string>)
    requires i < |rels| && NoRepeats(rels) && NoRepeats(batch + guarded)
    requires forall x :: x in batch + guarded <==> x in rels[..i]
    ensures NoRepeats(batch + [rels[i]] + guarded) && NoRepeats(batch + (guarded + [rels[i]]))
    ensures forall x :: x in batch + [rels[i]] + guarded <==> x in rels[..i + 1]
    ensures forall x :: x in batch + (guarded + [rels[i]]) <==> x in rels[..i + 1]
  {
    var r := rels[i];
    assert rels[..i + 1] == rels[..i] + [r];
    assert r !in rels[..i];
    Inserted(batch, guarded, r);
    assert batch + (guarded + [r]) == batch + guarded + [r];
  }

  lemma Inserted(a: seq<string>, b: seq<string>, r: string)
    requires NoRepeats(a + b) && r !in a + b
    ensures NoRepeats(a + [r] + b) && NoRepeats(a + b + [r])
  {
    var s := a + [r] + b;
    forall i, j | 0 <= i < j < |s|
      ensures s[i] != s[j]
    {
      var i', j' := if i <= |a| then i else i - 1, if j <= |a| then j else j - 1;
      assert i != |a| ==> (a + b)[i'] == s[i];
      assert j != |a| ==> (a + b)[j'] == s[j];
    }
  }

  // undoSessionPart, from the guard on. A FILE THE USER CHANGED SINCE IS NOT TOUCHED unless
  // they forced it or said yes; and what is reverted is what is reported. If no operation fails
  // of itself, every other file is put back, unless one of them may not be.
  method UndoPart(
    e: Session, disk: Disk, at: string -> Path, after: map<string, string>, rels: seq<string>, force: bool, saysYes: bool)
    returns (reverted: seq<Reverted>, guarded: seq<string>, ok: bool, ghost batch: seq<string>)
    requires WellFormed(disk.tree) && SnapshotsAreFiles(e) && Walked(at, rels) && NoLinks(e, at, rels)
    modifies disk
    ensures forall x :: x in batch + guarded <==> x in rels
    ensures Reports(e, reverted, batch) && IsReverted(e, old(disk.tree), disk.tree, batch[..|reverted|])
    ensures ok ==> |reverted| == |batch|
    ensures force || saysYes ==> guarded == []
    ensures !force && !saysYes ==>
              forall x :: x in rels && !AsLeft(old(disk.tree), at, after, x) ==>
                x in guarded && SameAt(old(disk.tree), disk.tree, at(x))
    ensures disk.faults >= old(disk.faults)
    ensures disk.faults == old(disk.faults) ==>
              && (forall x :: x in guarded ==> !AsLeft(old(disk.tree), at, after, x))
              && (NoneInTheWay(e, old(disk.tree), rels) ==> ok)
  {
    ghost var t0 := disk.tree;
    var rest;
    rest, guarded := SetAside(disk, at, after, rels);
    var proceed := force;
    if |guarded| > 0 && !proceed {
      proceed := saysYes;
    }
    if proceed {
      rest := rest + guarded;
      guarded := [];
    }
    batch := rest;
    ChosenOnly(batch, guarded, rels);
    SomeAreApart(e, at, rels, batch);
    SomeInNoWay(e, t0, rels, batch);
    reverted, ok := RestoreAll(e, disk, rest);
    forall x | x in guarded
      ensures SameAt(t0, disk.tree, at(x))
    {
      GuardedIsSame(e, at, rels, batch, guarded, |reverted|, t0, disk.tree, x);
    }
  }

  lemma SomeInNoWay(e: Session, t: Tree, rels: seq<string>, some: seq<string>)
    requires forall x :: x in some ==> x in rels
    ensures NoneInTheWay(e, t, rels) ==> NoneInTheWay(e, t, some)
  {
    if NoneInTheWay(e, t, rels) {
      forall i | 0 <= i < |some|
        ensures MayStage(e, t, some[i])
        ensures forall p: Path :: e.dest(some[i]).Some? && Above(p, e.dest(some[i]).value) ==> !IsStagingName(p)
      {
        assert some[i] in rels;
        var j :| 0 <= j < |rels| && rels[j] == some[i];
        assert MayStage(e, t, rels[j]);
      }
    }
  }

  lemma ChosenOnly(batch: seq<string>, guarded: seq<string>, rels: seq<string>)
    requires NoRepeats(batch + guarded) && forall x :: x in batch + guarded <==> x in rels
    ensures NoRepeats(batch) && forall x :: x in batch ==> x in rels
    ensures forall x :: x in guarded ==> x !in batch && x in rels
  {
    forall i, j | 0 <= i < j < |batch|
      ensures batch[i] != batch[j]
    {
      assert (batch + guarded)[i] == batch[i] && (batch + guarded)[j] == batch[j];
    }
    forall x | x in guarded
      ensures x !in batch && x in rels
    {
      assert x in batch + guarded;
      var j :| 0 <= j < |guarded| && guarded[j] == x;
      assert (batch + guarded)[|batch| + j] == x;
      forall i | 0 <= i < |batch|
        ensures batch[i] != x
      {
        assert (batch + guarded)[i] == batch[i];
      }
    }
  }

  lemma GuardedIsSame(
    e: Session, at: string -> Path, rels: seq<string>, batch: seq<string>, guarded: seq<string>, n: nat, t0: Tree, t: Tree, x: string)
    requires Walked(at, rels) && NoLinks(e, at, rels)
    requires forall y :: y in batch ==> y in rels
    requires n <= |batch| && IsReverted(e, t0, t, batch[..n])
    requires x in rels && x !in batch
    ensures SameAt(t0, t, at(x))
  {
    forall i | 0 <= i < n && e.dest(batch[i]).Some?
      ensures e.dest(batch[i]).value != at(x) && !Above(at(x), e.dest(batch[i]).value)
    {
      assert batch[i] in batch;
    }
    assert !IsDest(e, batch[..n], at(x));
    assert SameElsewhere(e, t0, t, batch[..n], at(x));
  }
}
