/**
 The working copy of a long task, its snapshots, and going back to one (daemon/checkpoint.go,
 daemon/stage.go, and stateHash in daemon/correction.go).

 A snapshot holds the files an edit or a command changed. Which files a command changed is
 told by what is in the copy after it ran, so a file a command only DELETES is not among
 them: going back to a snapshot is exact just as long as that happened to no file since.
 */
module Checkpoint {
  import opened Wrappers

  type Files = map<string, string>

  function Get(fs: Files, rel: string): Option<string> {
    if rel in fs then Some(fs[rel]) else None
  }

  // The project, the files of it that were copied, the copy, the files an edit changed, the
  // files a command changed, and how often the project was reshaped.
  datatype State = State(project: Files, manifest: set<string>, copy: Files, touched: set<string>, byCommand: set<string>, reshaped: nat)

  datatype Snapshot = Snapshot(files: map<string, Option<string>>, reshaped: nat)

  function Tracked(s: State): set<string> {
    s.touched + s.byCommand
  }

  // The project as the copy was made from it: projectFile.
  function ProjectFile(s: State, rel: string): Option<string> {
    if rel in s.manifest then Get(s.project, rel) else None
  }

  // newStagedWorkspace
  function NewStage(project: Files, manifest: set<string>): State {
    State(project, manifest, map rel | rel in manifest && rel in project :: project[rel], {}, {}, 0)
  }

  // ---------------------------------------------------------------- what happens in the copy

  // apply
  function Edited(s: State, rel: string, content: string): State {
    s.(copy := s.copy[rel := content], touched := s.touched + {rel})
  }

  // What noteCommandChanges sees of a command that left the copy as `after`: every file there
  // that was not there before, is not as it was, or was written again with what it held.
  function Noted(before: Files, after: Files, rewritten: set<string>): set<string> {
    set rel | rel in after && Shows(before, after, rewritten, rel)
  }

  predicate Shows(before: Files, after: Files, rewritten: set<string>, rel: string)
    requires rel in after
  {
    rel !in before || before[rel] != after[rel] || rel in rewritten
  }

  function Commanded(s: State, after: Files, rewritten: set<string>): State {
    s.(copy := after, byCommand := s.byCommand + Noted(s.copy, after, rewritten))
  }

  datatype Step = Edit(rel: string, content: string) | Command(after: Files, rewritten: set<string>)

  function Next(s: State, step: Step): State {
    match step
    case Edit(rel, content) => Edited(s, rel, content)
    case Command(after, rewritten) => Commanded(s, after, rewritten)
  }

  function Run(s: State, steps: seq<Step>): State {
    if steps == [] then s else Next(Run(s, steps[..|steps| - 1]), steps[|steps| - 1])
  }

  // snapshot
  function SnapshotOf(s: State): Snapshot {
    Snapshot(map rel | rel in Tracked(s) :: Get(s.copy, rel), s.reshaped)
  }

  // ---------------------------------------------------------------- going back

  function Wanted(s: State, cp: Snapshot, rel: string): Option<string> {
    if rel in cp.files then cp.files[rel] else ProjectFile(s, rel)
  }

  function Concerned(s: State, cp: Snapshot): set<string> {
    cp.files.Keys + Tracked(s)
  }

  // The copy has what is wanted at the files restored, and what it had elsewhere.
  ghost predicate IsRestored(s: State, t: State, cp: Snapshot, failed: set<string>) {
    && t.project == s.project && t.manifest == s.manifest && t.reshaped == s.reshaped && t.byCommand == s.byCommand
    && s.touched <= t.touched <= s.touched + Concerned(s, cp)
    && forall rel :: Get(t.copy, rel) ==
         if rel in Concerned(s, cp) && rel !in failed then Wanted(s, cp, rel) else Get(s.copy, rel)
  }

  class Stage {
    const project: Files
    const manifest: set<string>
    var copy: Files
    var touched: set<string>
    var byCommand: set<string>
    var reshaped: nat

    ghost function Now(): State
      reads this
    {
      State(project, manifest, copy, touched, byCommand, reshaped)
    }

    constructor (project: Files, manifest: set<string>)
      ensures Now() == NewStage(project, manifest)
    {
      this.project, this.manifest := project, manifest;
      copy := map rel | rel in manifest && rel in project :: project[rel];
      touched, byCommand, reshaped := {}, {}, 0;
    }

    method Apply(rel: string, content: string)
      modifies this
      ensures Now() == Edited(old(Now()), rel, content)
    {
      copy := copy[rel := content];
      touched := touched + {rel};
    }

    // A command, and what is noted of it afterwards, file by file.
    method RunCommand(after: Files, rewritten: set<string>)
      modifies this
      ensures Now() == Commanded(old(Now()), after, rewritten)
    {
      var before := copy;
      copy := after;
      var left := after.Keys;
      while left != {}
        invariant left <= after.Keys && copy == after && touched == old(touched) && reshaped == old(reshaped)
        invariant forall rel :: rel in byCommand <==>
                    rel in old(byCommand) || (rel in after && rel !in left && Shows(before, after, rewritten, rel))
        decreases |left|
      {
        var rel :| rel in left;
        left := left - {rel};
        if rel !in before || before[rel] != after[rel] || rel in rewritten {
          byCommand := byCommand + {rel};
        }
      }
      assert byCommand == old(byCommand) + Noted(before, after, rewritten);
    }

    method Save() returns (cp: Snapshot)
      ensures cp == SnapshotOf(Now())
    {
      cp := Snapshot(map rel | rel in touched + byCommand :: Get(copy, rel), reshaped);
    }

    // restoreSnapshot: any file may fail, and is then left as it was and named.
    method RestoreSnapshot(cp: Snapshot) returns (refused: bool, failed: set<string>)
      modifies this
      ensures refused == (cp.reshaped != old(reshaped))
      ensures refused ==> Now() == old(Now())
      ensures !refused ==> failed <= Concerned(old(Now()), cp) && IsRestored(old(Now()), Now(), cp, failed)
    {
      if cp.reshaped != reshaped {
        return true, {};
      }
      failed := RestoreFiles(cp, cp.files.Keys + touched + byCommand);
      return false, failed;
    }

    method RestoreFiles(cp: Snapshot, paths: set<string>) returns (failed: set<string>)
      requires paths == Concerned(Now(), cp)
      modifies this
      ensures failed <= paths && IsRestored(old(Now()), Now(), cp, failed)
    {
      ghost var s := Now();
      var left := paths;
      failed := {};
      ghost var restored: set<string> := {};
      while left != {}
        invariant left <= paths && failed <= paths
        invariant forall rel :: rel in restored <==> rel in paths && rel !in left && rel !in failed
        invariant left !! failed
        invariant byCommand == s.byCommand && reshaped == s.reshaped && s.touched <= touched <= s.touched + paths
        invariant PartRestored(s, copy, cp, restored)
        decreases |left|
      {
        var rel :| rel in left;
        ghost var was := copy;
        var ok := RestoreOne(cp, rel);
        OneMore(s, was, copy, cp, restored, rel, ok);
        left := left - {rel};
        if ok {
          restored := restored + {rel};
        } else {
          failed := failed + {rel};
        }
      }
    }

    method RestoreOne(cp: Snapshot, rel: string) returns (ok: bool)
      modifies this
      ensures byCommand == old(byCommand) && reshaped == old(reshaped)
      ensures old(touched) <= touched <= old(touched) + {rel}
      ensures if ok then Get(copy, rel) == Wanted(old(Now()), cp, rel) && copy - {rel} == old(copy) - {rel} else copy == old(copy)
    {
      var want := if rel in cp.files then cp.files[rel] else if rel in manifest then Get(project, rel) else None;
      ok := *;
      if ok && Get(copy, rel) != want {
        if want.None? {
          copy := copy - {rel};
        } else {
          copy := copy[rel := want.value];
          touched := touched + {rel};
        }
      }
    }
  }

  // The files at `done` have what is wanted, the rest what they had.
  ghost predicate PartRestored(s: State, copy: Files, cp: Snapshot, done: set<string>) {
    forall rel :: Get(copy, rel) == if rel in done then Wanted(s, cp, rel) else Get(s.copy, rel)
  }

  lemma OneMore(s: State, was: Files, copy: Files, cp: Snapshot, done: set<string>, rel: string, ok: bool)
    requires PartRestored(s, was, cp, done)
    requires if ok then Get(copy, rel) == Wanted(s, cp, rel) && copy - {rel} == was - {rel} else copy == was
    ensures PartRestored(s, copy, cp, if ok then done + {rel} else done)
  {
    if ok {
      forall other | other != rel
        ensures Get(copy, other) == Get(was, other)
      {
        assert Get(copy - {rel}, other) == Get(was - {rel}, other);
      }
    }
  }

  // ---------------------------------------------------------------- what can go wrong

  // Files of the project that are gone from the copy without a trace.
  ghost function Vanished(s: State): set<string> {
    set rel | rel in s.manifest && rel in s.project && rel !in s.copy && rel !in Tracked(s)
  }

  // Untracked files are the project's own, or gone.
  ghost predicate Faithful(s: State) {
    forall rel :: rel !in Tracked(s) ==> Get(s.copy, rel) == ProjectFile(s, rel) || rel !in s.copy
  }

  lemma NextFaithful(s: State, step: Step)
    requires Faithful(s)
    ensures Faithful(Next(s, step)) && Tracked(s) <= Tracked(Next(s, step))
    ensures Next(s, step).project == s.project && Next(s, step).manifest == s.manifest && Next(s, step).reshaped == s.reshaped
    ensures forall rel :: rel !in Tracked(Next(s, step)) && rel !in s.copy ==> rel !in Next(s, step).copy
  {
    match step
    case Edit(_, _) =>
    case Command(after, _) =>
      forall rel | rel !in Tracked(Next(s, step)) && rel in after
        ensures rel in s.copy && s.copy[rel] == after[rel]
      {
      }
  }

  // What is kept from one state of a stage to a later one.
  ghost predicate Later(s: State, t: State) {
    && Faithful(t) && Tracked(s) <= Tracked(t)
    && t.project == s.project && t.manifest == s.manifest && t.reshaped == s.reshaped
    && forall rel :: rel !in Tracked(t) && rel !in s.copy ==> rel !in t.copy
  }

  lemma {:induction false} RunIsLater(s: State, steps: seq<Step>)
    requires Faithful(s)
    ensures Later(s, Run(s, steps))
  {
    if steps != [] {
      RunIsLater(s, steps[..|steps| - 1]);
      NextFaithful(Run(s, steps[..|steps| - 1]), steps[|steps| - 1]);
    }
  }

  lemma FreshIsFaithful(project: Files, manifest: set<string>)
    ensures Faithful(NewStage(project, manifest)) && Vanished(NewStage(project, manifest)) == {}
  {
  }

  lemma SameFiles(a: Files, b: Files)
    requires forall rel :: Get(a, rel) == Get(b, rel)
    ensures a == b
  {
    forall rel
      ensures rel in a <==> rel in b
      ensures rel in a ==> a[rel] == b[rel]
    {
      assert Get(a, rel) == Get(b, rel);
    }
  }

  // At one file: back to the snapshot, unless it vanished meanwhile or comes back from having
  // vanished before.
  lemma BackAt(s: State, t: State, u: State, rel: string)
    requires Faithful(s) && Later(s, t) && IsRestored(t, u, SnapshotOf(s), {})
    ensures Get(u.copy, rel) == Get(s.copy, rel) <==> (rel in Vanished(s) <==> rel in Vanished(t))
  {
  }

  // GOING BACK IS EXACT just if the same files have vanished: with nothing reported as failed,
  // every file of the copy is as it was at the snapshot exactly if no file of the project that
  // no edit or command is known to have changed has gone from the copy since, or come back.
  lemma RestoreIsExactIff(s: State, t: State, u: State)
    requires Faithful(s) && Later(s, t) && IsRestored(t, u, SnapshotOf(s), {})
    ensures u.copy == s.copy <==> Vanished(s) == Vanished(t)
  {
    forall rel
      ensures Get(u.copy, rel) == Get(s.copy, rel) <==> (rel in Vanished(s) <==> rel in Vanished(t))
    {
      BackAt(s, t, u, rel);
    }
    if Vanished(s) == Vanished(t) {
      SameFiles(u.copy, s.copy);
    }
  }

  // A run in which every command leaves behind every file it found.
  ghost predicate KeepsFiles(s: State, steps: seq<Step>) {
    forall i :: 0 <= i < |steps| && steps[i].Command? ==> Run(s, steps[..i]).copy.Keys <= steps[i].after.Keys
  }

  lemma {:induction false} NothingVanishes(s: State, steps: seq<Step>)
    requires Faithful(s) && KeepsFiles(s, steps)
    ensures s.copy.Keys <= Run(s, steps).copy.Keys
  {
    if steps != [] {
      var init := steps[..|steps| - 1];
      forall i | 0 <= i < |init| && init[i].Command?
        ensures Run(s, init[..i]).copy.Keys <= init[i].after.Keys
      {
        assert init[..i] == steps[..i];
      }
      NothingVanishes(s, init);
    }
  }

  // So it is exact on every run of a fresh stage whose commands delete nothing.
  lemma RestoreIsExact(project: Files, manifest: set<string>, before: seq<Step>, after: seq<Step>, u: State)
    requires var s0 := NewStage(project, manifest); var s := Run(s0, before);
             && KeepsFiles(s0, before) && KeepsFiles(s, after)
             && IsRestored(Run(s, after), u, SnapshotOf(s), {})
    ensures u.copy == Run(NewStage(project, manifest), before).copy
  {
    var s0 := NewStage(project, manifest);
    var s := Run(s0, before);
    FreshIsFaithful(project, manifest);
    RunIsLater(s0, before);
    RunIsLater(s, after);
    NothingVanishes(s0, before);
    NothingVanishes(s, after);
    RestoreIsExactIff(s, Run(s, after), u);
  }

  // AND NOT OTHERWISE: a command that deletes a file nobody edited is not undone.
  lemma DeletedIsNotPutBack(project: Files, rel: string, u: State)
    requires rel in project
    requires var s := NewStage(project, project.Keys);
             IsRestored(Run(s, [Command(s.copy - {rel}, {})]), u, SnapshotOf(s), {})
    ensures u.copy != NewStage(project, project.Keys).copy && rel !in u.copy
  {
    var s := NewStage(project, project.Keys);
    var steps := [Command(s.copy - {rel}, {})];
    assert steps[..0] == [];
    assert Run(s, steps) == Commanded(s, s.copy - {rel}, {});
    assert Get(u.copy, rel) == None;
  }

  // ---------------------------------------------------------------- stateHash

  // What stateHash is a digest of: the tracked files that differ from the project's own, and
  // the reshapings.
  ghost function Code(s: State): (map<string, Option<string>>, nat) {
    (map rel | rel in Tracked(s) && Get(s.copy, rel) != Get(s.project, rel) :: Get(s.copy, rel), s.reshaped)
  }

  // THE HASH AFTER GOING BACK is the hash at the snapshot exactly if no file changed since is
  // one of the project's that were left out of the copy -- whatever the commands deleted.
  lemma SameCodeIff(s: State, t: State, u: State)
    requires Faithful(s) && Later(s, t) && IsRestored(t, u, SnapshotOf(s), {})
    ensures Code(u) == Code(s) <==> forall rel :: rel in Tracked(t) - Tracked(s) && rel in s.project ==> rel in s.manifest
  {
    var a, b := Code(u).0, Code(s).0;
    assert Tracked(u) == Tracked(t);
    forall rel
      ensures rel in b ==> rel in a && a[rel] == b[rel]
      ensures rel in a && rel !in b <==> rel in Tracked(t) - Tracked(s) && rel in s.project && rel !in s.manifest
    {
      CodeAt(s, t, u, rel);
    }
    if forall rel :: rel in Tracked(t) - Tracked(s) && rel in s.project ==> rel in s.manifest {
      assert a == b;
    }
  }

  lemma CodeAt(s: State, t: State, u: State, rel: string)
    requires Faithful(s) && Later(s, t) && IsRestored(t, u, SnapshotOf(s), {}) && Tracked(u) == Tracked(t)
    ensures var a, b := Code(u).0, Code(s).0;
            && (rel in b ==> rel in a && a[rel] == b[rel])
            && (rel in a && rel !in b <==> rel in Tracked(t) - Tracked(s) && rel in s.project && rel !in s.manifest)
  {
  }

  // Files of the project that are not in the copy and that nothing is known of.
  ghost function Absent(s: State): set<string> {
    set rel | rel in s.project && rel !in s.copy && rel !in Tracked(s)
  }

  // EQUAL HASHES MEAN EQUAL COPIES only as long as the same files of the project are absent
  // without a trace: left out, or deleted by a command.
  lemma EqualHashesIff(s: State, u: State)
    requires Faithful(s) && Faithful(u) && u.project == s.project && Code(u) == Code(s)
    ensures u.copy == s.copy <==> Absent(u) == Absent(s)
  {
    var a, b := Code(u).0, Code(s).0;
    forall rel
      ensures rel in a <==> rel in b
      ensures rel in a ==> Get(u.copy, rel) == Get(s.copy, rel)
      ensures rel !in a && (rel in Absent(u) <==> rel in Absent(s)) ==> Get(u.copy, rel) == Get(s.copy, rel)
      ensures u.copy == s.copy ==> (rel in Absent(u) <==> rel in Absent(s))
    {
      assert rel in a ==> a[rel] == b[rel];
    }
    if Absent(u) == Absent(s) {
      SameFiles(u.copy, s.copy);
    }
  }

  lemma RestoredIsFaithful(t: State, u: State, cp: Snapshot, failed: set<string>)
    requires Faithful(t) && IsRestored(t, u, cp, failed)
    requires forall rel :: rel in cp.files ==> rel in Tracked(t)
    ensures Faithful(u)
  {
  }

  // After going back with an equal hash the copy is the snapshot's exactly if the same files
  // have vanished.
  lemma HashAfterRestoreIff(s: State, t: State, u: State)
    requires Faithful(s) && Later(s, t) && IsRestored(t, u, SnapshotOf(s), {}) && Code(u) == Code(s)
    ensures u.copy == s.copy <==> Absent(u) == Absent(s)
    ensures u.copy == s.copy <==> Vanished(t) == Vanished(s)
  {
    RestoredIsFaithful(t, u, SnapshotOf(s), {});
    EqualHashesIff(s, u);
    RestoreIsExactIff(s, t, u);
  }

  // And the hash does miss it: the file a command deleted is not put back, and the hash is the
  // snapshot's all the same.
  lemma HashMissesDeletion(project: Files, rel: string, u: State)
    requires rel in project
    requires var s := NewStage(project, project.Keys);
             IsRestored(Run(s, [Command(s.copy - {rel}, {})]), u, SnapshotOf(s), {})
    ensures Code(u) == Code(NewStage(project, project.Keys)) && u.copy != NewStage(project, project.Keys).copy
  {
    var s := NewStage(project, project.Keys);
    var steps := [Command(s.copy - {rel}, {})];
    FreshIsFaithful(project, project.Keys);
    RunIsLater(s, steps);
    SameCodeIff(s, Run(s, steps), u);
    DeletedIsNotPutBack(project, rel, u);
    assert steps[..0] == [];
    assert Run(s, steps) == Commanded(s, s.copy - {rel}, {});
    assert Tracked(Run(s, steps)) == {};
  }
}
