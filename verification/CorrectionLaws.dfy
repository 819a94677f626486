/**
 What the judge's decisions rest on, over any run of checks (daemon/correction.go).
 */
module CorrectionLaws {
  import Bytes
  import opened Numbers
  import opened Wrappers
  import opened CorrectionJudge

  datatype Config = Config(attempts: nat, pristine: string)

  // The judge after a run of checks.
  function Run(g: Config, cs: seq<Check>): State {
    if cs == [] then START else Observed(Run(g, cs[..|cs| - 1]), g.attempts, g.pristine, cs[|cs| - 1])
  }

  lemma RunSnoc(g: Config, cs: seq<Check>, c: Check)
    ensures Run(g, cs + [c]) == Observed(Run(g, cs), g.attempts, g.pristine, c)
  {
    assert (cs + [c])[..|cs|] == cs;
  }

  lemma {:induction false} StatesOfRun(g: Config, cs: seq<Check>)
    ensures |Run(g, cs).states| == |cs|
  {
    if cs != [] {
      StatesOfRun(g, cs[..|cs| - 1]);
    }
  }

  // ---------------------------------------------------------------- the best

  // Check i was of that command and said how bad it is.
  predicate Scored(cs: seq<Check>, command: string, i: nat) {
    i < |cs| && cs[i].command == command && ScoreOf(cs[i].outcome).Some?
  }

  function ScoreAt(cs: seq<Check>, i: nat): Score
    requires i < |cs| && ScoreOf(cs[i].outcome).Some?
  {
    ScoreOf(cs[i].outcome).value
  }

  ghost predicate NoneScored(cs: seq<Check>, command: string) {
    forall i: nat {:trigger Scored(cs, command, i)} :: !Scored(cs, command, i)
  }

  // Check `at` was the first with the least score.
  ghost predicate FirstLeast(cs: seq<Check>, command: string, at: nat) {
    && Scored(cs, command, at)
    && forall i: nat {:trigger Scored(cs, command, i)} :: Scored(cs, command, i) ==>
         && !Worse(ScoreAt(cs, at), ScoreAt(cs, i))
         && (i < at ==> Worse(ScoreAt(cs, i), ScoreAt(cs, at)))
  }

  ghost predicate BestIsLeast(cs: seq<Check>, command: string, tr: Track) {
    if !tr.haveBest then NoneScored(cs, command)
    else
      && 1 <= tr.bestCheck <= |cs| && FirstLeast(cs, command, tr.bestCheck - 1)
      && tr.best == ScoreAt(cs, tr.bestCheck - 1) && tr.bestState == cs[tr.bestCheck - 1].state
  }

  lemma ScoredSnoc(cs: seq<Check>, c: Check, command: string, i: nat)
    ensures Scored(cs + [c], command, i) <==>
            Scored(cs, command, i) || (i == |cs| && c.command == command && ScoreOf(c.outcome).Some?)
    ensures Scored(cs, command, i) ==> ScoreAt(cs + [c], i) == ScoreAt(cs, i)
  {
  }

  lemma BestUnscored(cs: seq<Check>, c: Check, command: string, tr: Track)
    requires BestIsLeast(cs, command, tr)
    requires c.command != command || ScoreOf(c.outcome).None?
    ensures BestIsLeast(cs + [c], command, tr)
  {
    forall i: nat
      ensures Scored(cs + [c], command, i) <==> Scored(cs, command, i)
      ensures Scored(cs, command, i) ==> ScoreAt(cs + [c], i) == ScoreAt(cs, i)
    {
      ScoredSnoc(cs, c, command, i);
    }
  }

  lemma BestScored(cs: seq<Check>, c: Check, tr: Track)
    requires BestIsLeast(cs, c.command, tr) && ScoreOf(c.outcome).Some?
    ensures BestIsLeast(cs + [c], c.command, Measured(tr, c, |cs| + 1))
  {
    var more := cs + [c];
    forall i: nat
      ensures Scored(more, c.command, i) <==> Scored(cs, c.command, i) || i == |cs|
      ensures Scored(cs, c.command, i) ==> ScoreAt(more, i) == ScoreAt(cs, i)
    {
      ScoredSnoc(cs, c, c.command, i);
    }
    assert more[|cs|] == c;
  }

  // THE BEST IS THE BEST: of a command that never answered twice differently for one state, the
  // code kept is that of the earliest check with the least score of all its checks.
  lemma {:induction false} BestOfRun(g: Config, cs: seq<Check>, command: string)
    requires !TrackOf(Run(g, cs), command).flaky
    ensures BestIsLeast(cs, command, TrackOf(Run(g, cs), command))
  {
    if cs == [] {
      assert TrackOf(START, command) == NEW_TRACK;
    } else {
      var init, c := cs[..|cs| - 1], cs[|cs| - 1];
      assert cs == init + [c];
      RunSnoc(g, init, c);
      StatesOfRun(g, init);
      BestOfRun(g, init, command);
      BestStep(g, init, c, command);
    }
  }

  lemma BestStep(g: Config, cs: seq<Check>, c: Check, command: string)
    requires |Run(g, cs).states| == |cs|
    requires BestIsLeast(cs, command, TrackOf(Run(g, cs), command))
    requires !TrackOf(Run(g, cs + [c]), command).flaky
    ensures BestIsLeast(cs + [c], command, TrackOf(Run(g, cs + [c]), command))
  {
    var was, now := TrackOf(Run(g, cs), command), TrackOf(Run(g, cs + [c]), command);
    if c.command != command || ScoreOf(c.outcome).None? {
      BestKept(g, cs, c, command);
      BestUnscored(cs, c, command, was);
      SameBest(cs + [c], command, was, now);
    } else {
      BestMoved(g, cs, c);
      BestScored(cs, c, Said(was, c));
      SameBest(cs + [c], command, Measured(Said(was, c), c, |cs| + 1), now);
    }
  }

  // What BestIsLeast looks at.
  ghost predicate BestAlike(a: Track, b: Track) {
    a.haveBest == b.haveBest && a.best == b.best && a.bestCheck == b.bestCheck && a.bestState == b.bestState
  }

  lemma SameBest(cs: seq<Check>, command: string, a: Track, b: Track)
    requires BestIsLeast(cs, command, a) && BestAlike(a, b)
    ensures BestIsLeast(cs, command, b)
  {
  }

  lemma BestKept(g: Config, cs: seq<Check>, c: Check, command: string)
    requires c.command != command || ScoreOf(c.outcome).None?
    ensures BestAlike(TrackOf(Run(g, cs), command), TrackOf(Run(g, cs + [c]), command))
  {
    RunSnoc(g, cs, c);
  }

  lemma BestMoved(g: Config, cs: seq<Check>, c: Check)
    requires |Run(g, cs).states| == |cs| && !TrackOf(Run(g, cs + [c]), c.command).flaky
    ensures BestAlike(Measured(Said(TrackOf(Run(g, cs), c.command), c), c, |cs| + 1), TrackOf(Run(g, cs + [c]), c.command))
  {
    RunSnoc(g, cs, c);
  }

  // ---------------------------------------------------------------- what a check is judged by

  // The command's last scored check before check i.
  function PriorScored(cs: seq<Check>, command: string, i: nat): Option<nat> {
    if i == 0 then None else if Scored(cs, command, i - 1) then Some(i - 1) else PriorScored(cs, command, i - 1)
  }

  ghost predicate IsPrior(cs: seq<Check>, command: string, i: nat, p: nat) {
    && p < i && Scored(cs, command, p)
    && forall k: nat {:trigger Scored(cs, command, k)} :: p < k < i ==> !Scored(cs, command, k)
  }

  lemma {:induction false} PriorIs(cs: seq<Check>, command: string, i: nat)
    ensures match PriorScored(cs, command, i)
            case None => forall k: nat {:trigger Scored(cs, command, k)} :: k < i ==> !Scored(cs, command, k)
            case Some(p) => IsPrior(cs, command, i, p)
  {
    if i > 0 && !Scored(cs, command, i - 1) {
      PriorIs(cs, command, i - 1);
    }
  }

  lemma {:induction false} PriorUnique(cs: seq<Check>, command: string, i: nat, p: nat)
    requires IsPrior(cs, command, i, p)
    ensures PriorScored(cs, command, i) == Some(p)
  {
    PriorIs(cs, command, i);
  }

  lemma {:induction false} PriorSnoc(cs: seq<Check>, c: Check, command: string, i: nat)
    requires i <= |cs|
    ensures PriorScored(cs + [c], command, i) == PriorScored(cs, command, i)
  {
    if i > 0 {
      ScoredSnoc(cs, c, command, i - 1);
      PriorSnoc(cs, c, command, i - 1);
    }
  }

  // WHAT A SCORED CHECK IS JUDGED BY: its score; but failing tests that the model wrote itself
  // and that did not fail at the command's scored check before are not held against it.
  function JudgedAt(cs: seq<Check>, i: nat): Score
    requires i < |cs| && ScoreOf(cs[i].outcome).Some?
  {
    var o := cs[i].outcome;
    match PriorScored(cs, cs[i].command, i)
    case None => ScoreAt(cs, i)
    case Some(p) =>
      if o.kind == Pass then ScoreAt(cs, i)
      else Score(ScoreAt(cs, i).broken,
                 Max(0, ScoreAt(cs, i).failing - OwnCount(o.failing, FailingAt(cs, p), cs[i].ownTest)))
  }

  function FailingAt(cs: seq<Check>, p: nat): seq<string> {
    if p < |cs| then cs[p].outcome.failing else []
  }

  lemma JudgedSnoc(cs: seq<Check>, c: Check, i: nat)
    requires i < |cs| && ScoreOf(cs[i].outcome).Some?
    ensures JudgedAt(cs + [c], i) == JudgedAt(cs, i)
  {
    PriorSnoc(cs, c, cs[i].command, i);
    PriorIs(cs, cs[i].command, i);
  }

  // What a track says of the last scored check.
  ghost predicate LastAt(cs: seq<Check>, command: string, tr: Track, p: nat) {
    && IsPrior(cs, command, |cs|, p) && tr.last == ScoreAt(cs, p) && tr.lastFailing == cs[p].outcome.failing
    && tr.haveBest && (tr.worse > 0 <==> Worse(JudgedAt(cs, p), tr.best))
  }

  ghost predicate Remembers(cs: seq<Check>, command: string, tr: Track) {
    if tr.have then exists p: nat {:trigger IsPrior(cs, command, |cs|, p)} :: LastAt(cs, command, tr, p)
    else tr.worse == 0 && NoneScored(cs, command)
  }

  lemma LastStays(cs: seq<Check>, c: Check, command: string, tr: Track, p: nat)
    requires LastAt(cs, command, tr, p)
    requires c.command != command || ScoreOf(c.outcome).None?
    ensures LastAt(cs + [c], command, tr, p)
  {
    JudgedSnoc(cs, c, p);
    forall k: nat
      ensures Scored(cs + [c], command, k) <==> Scored(cs, command, k)
      ensures Scored(cs, command, k) ==> ScoreAt(cs + [c], k) == ScoreAt(cs, k)
    {
      ScoredSnoc(cs, c, command, k);
    }
  }

  lemma NoneStays(cs: seq<Check>, c: Check, command: string)
    requires NoneScored(cs, command)
    requires c.command != command || ScoreOf(c.outcome).None?
    ensures NoneScored(cs + [c], command)
  {
    forall k: nat {:trigger Scored(cs + [c], command, k)}
      ensures !Scored(cs + [c], command, k)
    {
      ScoredSnoc(cs, c, command, k);
    }
  }

  // The judge judges by just that.
  lemma JudgedIs(cs: seq<Check>, c: Check, tr: Track)
    requires Remembers(cs, c.command, tr) && ScoreOf(c.outcome).Some?
    ensures Judged(tr, c) == JudgedAt(cs + [c], |cs|)
  {
    var more := cs + [c];
    assert more[|cs|] == c;
    PriorSnoc(cs, c, c.command, |cs|);
    if tr.have {
      var p: nat :| LastAt(cs, c.command, tr, p);
      PriorUnique(cs, c.command, |cs|, p);
      assert FailingAt(more, p) == cs[p].outcome.failing;
    } else {
      PriorIs(cs, c.command, |cs|);
    }
  }

  lemma LastMoves(cs: seq<Check>, c: Check, tr: Track, no: nat)
    requires Remembers(cs, c.command, tr) && ScoreOf(c.outcome).Some?
    ensures LastAt(cs + [c], c.command, Compared(Measured(tr, c, no), c), |cs|)
  {
    JudgedIs(cs, c, tr);
    assert (cs + [c])[|cs|] == c;
  }

  lemma {:induction false} RememberedOfRun(g: Config, cs: seq<Check>, command: string)
    requires !TrackOf(Run(g, cs), command).flaky
    ensures Remembers(cs, command, TrackOf(Run(g, cs), command))
  {
    if cs == [] {
      assert TrackOf(START, command) == NEW_TRACK;
    } else {
      var init, c := cs[..|cs| - 1], cs[|cs| - 1];
      assert cs == init + [c];
      RunSnoc(g, init, c);
      StatesOfRun(g, init);
      RememberedOfRun(g, init, command);
      RememberedStep(g, init, c, command);
    }
  }

  lemma RememberedStep(g: Config, cs: seq<Check>, c: Check, command: string)
    requires |Run(g, cs).states| == |cs|
    requires Remembers(cs, command, TrackOf(Run(g, cs), command))
    requires !TrackOf(Run(g, cs + [c]), command).flaky
    ensures Remembers(cs + [c], command, TrackOf(Run(g, cs + [c]), command))
  {
    var was, now := TrackOf(Run(g, cs), command), TrackOf(Run(g, cs + [c]), command);
    if c.command == command && ScoreOf(c.outcome).Some? {
      TrackMoves(g, cs, c);
      SaidRemembers(cs, c, was);
      LastMoves(cs, c, Said(was, c), |cs| + 1);
      assert IsPrior(cs + [c], command, |cs + [c]|, |cs|);
    } else {
      TrackStays(g, cs, c, command);
      if was.have {
        var p: nat :| LastAt(cs, command, was, p);
        LastStays(cs, c, command, was, p);
        assert LastAt(cs + [c], command, now, p);
      } else {
        NoneStays(cs, c, command);
      }
    }
  }

  lemma SaidRemembers(cs: seq<Check>, c: Check, was: Track)
    requires Remembers(cs, c.command, was)
    ensures Remembers(cs, c.command, Said(was, c))
  {
    if was.have {
      var p: nat :| LastAt(cs, c.command, was, p);
      assert LastAt(cs, c.command, Said(was, c), p);
    }
  }

  lemma TrackMoves(g: Config, cs: seq<Check>, c: Check)
    requires |Run(g, cs).states| == |cs| && !TrackOf(Run(g, cs + [c]), c.command).flaky
    ensures TrackOf(Run(g, cs + [c]), c.command)
         == Compared(Measured(Said(TrackOf(Run(g, cs), c.command), c), c, |cs| + 1), c)
    ensures !Said(TrackOf(Run(g, cs), c.command), c).flaky
  {
    RunSnoc(g, cs, c);
  }

  lemma TrackStays(g: Config, cs: seq<Check>, c: Check, command: string)
    requires c.command != command || ScoreOf(c.outcome).None?
    ensures var was, now := TrackOf(Run(g, cs), command), TrackOf(Run(g, cs + [c]), command);
            && now.have == was.have && now.last == was.last && now.lastFailing == was.lastFailing
            && now.worse == was.worse && now.haveBest == was.haveBest && now.best == was.best
  {
    RunSnoc(g, cs, c);
  }

  // ---------------------------------------------------------------- flaky commands

  ghost predicate SameCase(cs: seq<Check>, i: nat, j: nat)
    requires i < |cs| && j < |cs|
  {
    cs[i].command == cs[j].command && cs[i].state == cs[j].state
  }

  function AnswerAt(cs: seq<Check>, i: nat): Answer
    requires i < |cs|
  {
    Answer(cs[i].outcome.kind, cs[i].outcome.signature)
  }

  // The command has given two answers for one state of the code.
  ghost predicate Flaky(cs: seq<Check>, command: string) {
    exists i: nat, j: nat {:trigger SameCase(cs, i, j)} ::
      i < |cs| && j < |cs| && cs[i].command == command && SameCase(cs, i, j) && AnswerAt(cs, i) != AnswerAt(cs, j)
  }

  // What a track knows of the answers: the last one for every state.
  ghost predicate Knows(cs: seq<Check>, command: string, tr: Track) {
    && (tr.flaky <==> Flaky(cs, command))
    && (forall i: nat {:trigger cs[i]} :: i < |cs| && cs[i].command == command ==> cs[i].state in tr.said)
    && (forall state {:trigger tr.said[state]} :: state in tr.said ==>
          exists i: nat {:trigger cs[i]} ::
            i < |cs| && cs[i].command == command && cs[i].state == state && AnswerAt(cs, i) == tr.said[state])
  }

  lemma FlakySnoc(cs: seq<Check>, c: Check, command: string)
    ensures Flaky(cs + [c], command) <==> Flaky(cs, command) || Contradicts(cs, c, command)
  {
    var more := cs + [c];
    assert more[|cs|] == c;
    if Flaky(cs, command) {
      var i: nat, j: nat :| i < |cs| && j < |cs| && cs[i].command == command && SameCase(cs, i, j)
                            && AnswerAt(cs, i) != AnswerAt(cs, j);
      assert SameCase(more, i, j) && more[i] == cs[i] && more[j] == cs[j];
    }
    if Contradicts(cs, c, command) {
      var i: nat :| i < |cs| && cs[i].command == command == c.command && cs[i].state == c.state
                    && AnswerAt(cs, i) != Answer(c.outcome.kind, c.outcome.signature);
      assert SameCase(more, i, |cs|) && more[i] == cs[i];
    }
    if Flaky(more, command) {
      var i: nat, j: nat :| i < |more| && j < |more| && more[i].command == command && SameCase(more, i, j)
                            && AnswerAt(more, i) != AnswerAt(more, j);
      if i < |cs| && j < |cs| {
        assert more[i] == cs[i] && more[j] == cs[j] && SameCase(cs, i, j);
      } else {
        assert Contradicts(cs, c, command) by {
          assert more[if i < |cs| then i else j] == cs[if i < |cs| then i else j];
        }
      }
    }
  }

  ghost predicate Contradicts(cs: seq<Check>, c: Check, command: string) {
    c.command == command && exists i: nat {:trigger cs[i]} ::
      i < |cs| && cs[i].command == command && cs[i].state == c.state
      && AnswerAt(cs, i) != Answer(c.outcome.kind, c.outcome.signature)
  }

  // A COMMAND IS FLAKY, to the judge, exactly if it has given two answers for one state.
  lemma {:induction false} FlakyOfRun(g: Config, cs: seq<Check>, command: string)
    ensures Knows(cs, command, TrackOf(Run(g, cs), command))
  {
    if cs == [] {
      assert TrackOf(START, command) == NEW_TRACK;
    } else {
      var init, c := cs[..|cs| - 1], cs[|cs| - 1];
      assert cs == init + [c];
      FlakyOfRun(g, init, command);
      FlakySnoc(init, c, command);
      var was := TrackOf(Run(g, init), command);
      TrackSaid(g, init, c, command);
      if c.command == command {
        KnowsSaid(init, c, was);
        KnowsAlike(cs, command, Said(was, c), TrackOf(Run(g, cs), command));
      } else {
        KnowsOther(init, c, command, was);
        KnowsAlike(cs, command, was, TrackOf(Run(g, cs), command));
      }
    }
  }

  lemma TrackSaid(g: Config, cs: seq<Check>, c: Check, command: string)
    ensures var was, now := TrackOf(Run(g, cs), command), TrackOf(Run(g, cs + [c]), command);
            var said := if c.command == command then Said(was, c) else was;
            now.flaky == said.flaky && now.said == said.said
  {
    RunSnoc(g, cs, c);
  }

  lemma KnowsAlike(cs: seq<Check>, command: string, a: Track, b: Track)
    requires Knows(cs, command, a) && a.flaky == b.flaky && a.said == b.said
    ensures Knows(cs, command, b)
  {
    forall state {:trigger b.said[state]} | state in b.said
      ensures exists i: nat {:trigger cs[i]} ::
                i < |cs| && cs[i].command == command && cs[i].state == state && AnswerAt(cs, i) == b.said[state]
    {
      assert a.said[state] == b.said[state];
    }
  }

  lemma KnowsOther(cs: seq<Check>, c: Check, command: string, tr: Track)
    requires Knows(cs, command, tr) && c.command != command
    ensures Knows(cs + [c], command, tr)
  {
    FlakySnoc(cs, c, command);
    forall state {:trigger tr.said[state]} | state in tr.said
      ensures exists i: nat {:trigger (cs + [c])[i]} ::
                i < |cs + [c]| && (cs + [c])[i].command == command && (cs + [c])[i].state == state
                && AnswerAt(cs + [c], i) == tr.said[state]
    {
      var i: nat :| i < |cs| && cs[i].command == command && cs[i].state == state && AnswerAt(cs, i) == tr.said[state];
      assert (cs + [c])[i] == cs[i];
    }
  }

  // Its last answer for the state contradicts the new one exactly if any does, or it was flaky.
  lemma LastContradicts(cs: seq<Check>, c: Check, tr: Track)
    requires Knows(cs, c.command, tr)
    ensures Said(tr, c).flaky <==> Flaky(cs, c.command) || Contradicts(cs, c, c.command)
  {
    if c.state in tr.said {
      var k: nat :| k < |cs| && cs[k].command == c.command && cs[k].state == c.state && AnswerAt(cs, k) == tr.said[c.state];
      if Contradicts(cs, c, c.command) {
        var i: nat :| i < |cs| && cs[i].command == c.command && cs[i].state == c.state
                      && AnswerAt(cs, i) != Answer(c.outcome.kind, c.outcome.signature);
        assert SameCase(cs, i, k);
      }
    }
  }

  lemma KnowsSaid(cs: seq<Check>, c: Check, tr: Track)
    requires Knows(cs, c.command, tr)
    ensures Knows(cs + [c], c.command, Said(tr, c))
  {
    var more, said := cs + [c], Said(tr, c);
    FlakySnoc(cs, c, c.command);
    LastContradicts(cs, c, tr);
    forall i: nat {:trigger more[i]} | i < |more| && more[i].command == c.command
      ensures more[i].state in said.said
    {
      assert i < |cs| ==> more[i] == cs[i];
    }
    forall state {:trigger said.said[state]} | state in said.said
      ensures exists i: nat {:trigger more[i]} ::
                i < |more| && more[i].command == c.command && more[i].state == state && AnswerAt(more, i) == said.said[state]
    {
      if state == c.state {
        assert more[|cs|] == c;
      } else {
        var i: nat :| i < |cs| && cs[i].command == c.command && cs[i].state == state && AnswerAt(cs, i) == tr.said[state];
        assert more[i] == cs[i];
      }
    }
  }

  // ---------------------------------------------------------------- going back

  // The last check's code stood at an earlier check, but not at the one before, and it was not
  // gone back to by a checkpoint or by starting over.
  ghost predicate WentRound(g: Config, cs: seq<Check>) {
    var n := |cs| - 1;
    && n >= 2 && cs[n - 1].state != cs[n].state && !cs[n].restored && cs[n].state != g.pristine
    && exists k: nat :: k < n - 1 && cs[k].state == cs[n].state
  }

  // The last check was scored, and so was check p, the command's one before; both were judged
  // worse than check `best`, and the last was judged no better than p's score.
  ghost predicate WorseTwice(cs: seq<Check>, p: nat, best: nat)
    requires cs != [] && best < |cs| && ScoreOf(cs[best].outcome).Some?
  {
    var n := |cs| - 1;
    && Scored(cs, cs[n].command, n) && IsPrior(cs, cs[n].command, n, p)
    && Worse(JudgedAt(cs, p), ScoreAt(cs, best)) && Worse(JudgedAt(cs, n), ScoreAt(cs, best))
    && !Worse(ScoreAt(cs, p), JudgedAt(cs, n))
  }

  lemma StatesAre(g: Config, cs: seq<Check>, i: nat)
    requires i < |cs|
    ensures |Run(g, cs).states| == |cs| && Run(g, cs).states[i] == cs[i].state
  {
    StatesOfRun(g, cs);
    if i < |cs| - 1 {
      StatesAre(g, cs[..|cs| - 1], i);
    } else {
      StatesOfRun(g, cs[..|cs| - 1]);
    }
  }

  lemma RoundIs(g: Config, cs: seq<Check>, c: Check)
    ensures Oscillates(Run(g, cs).states, c, g.pristine) <==> WentRound(g, cs + [c])
  {
    var states, more := Run(g, cs).states, cs + [c];
    StatesOfRun(g, cs);
    assert more[|cs|] == c;
    forall i: nat | i < |cs|
      ensures states[i] == cs[i].state == more[i].state
    {
      StatesAre(g, cs, i);
    }
    RoundOver(g, states, more);
  }

  lemma RoundOver(g: Config, states: seq<string>, cs: seq<Check>)
    requires |cs| == |states| + 1 && forall i :: 0 <= i < |states| ==> states[i] == cs[i].state
    ensures Oscillates(states, cs[|states|], g.pristine) <==> WentRound(g, cs)
  {
    var c := cs[|states|];
    if Oscillates(states, c, g.pristine) {
      var k: nat :| k < |states| - 1 && states[..|states| - 1][k] == c.state;
      assert cs[k].state == c.state;
    }
    if WentRound(g, cs) {
      var k: nat :| k < |states| - 1 && cs[k].state == c.state;
      assert states[..|states| - 1][k] == c.state;
    }
  }

  lemma DecisionAfter(g: Config, cs: seq<Check>, c: Check)
    ensures var was, d := TrackOf(Run(g, cs), c.command), Run(g, cs + [c]).decision;
            if Said(was, c).flaky then d == NO_DECISION
            else
              var b := GoBack(Said(was, c), c, |cs| + 1, Oscillates(Run(g, cs).states, c, g.pristine));
              d == if Fails(c.outcome) then Climb(b, CountOf(Run(g, cs), c.outcome.signature) + 1, g.attempts) else b
  {
    RunSnoc(g, cs, c);
    StatesOfRun(g, cs);
  }

  // What the judge holds at the last check, in terms of the checks alone.
  ghost predicate Seen(cs: seq<Check>, tr: Track, best: nat, no: nat)
    requires cs != []
  {
    var c := cs[|cs| - 1];
    && ScoreOf(c.outcome).Some? && FirstLeast(cs, c.command, best)
    && (IsNewBest(tr, c) <==> best == |cs| - 1)
    && Measured(tr, c, no).bestState == cs[best].state
    && (Measured(tr, c, no).worse >= 2 && !(tr.have && Worse(tr.last, Judged(tr, c))) <==>
          exists p: nat {:trigger WorseTwice(cs, p, best)} :: WorseTwice(cs, p, best))
  }

  lemma FirstLeastUnique(cs: seq<Check>, command: string, a: nat, b: nat)
    requires FirstLeast(cs, command, a) && FirstLeast(cs, command, b)
    ensures a == b
  {
  }

  // A check judged worse than the best did not become the best.
  lemma BestUnmoved(was: Track, c: Check, no: nat)
    requires ScoreOf(c.outcome).Some? && Worse(Judged(was, c), Measured(was, c, no).best)
    ensures was.haveBest ==> Measured(was, c, no).best == was.best && !IsNewBest(was, c)
  {
  }

  lemma PriorMore(cs: seq<Check>, c: Check, command: string, p: nat)
    requires IsPrior(cs, command, |cs|, p)
    ensures IsPrior(cs + [c], command, |cs|, p)
    ensures ScoreAt(cs + [c], p) == ScoreAt(cs, p) && JudgedAt(cs + [c], p) == JudgedAt(cs, p)
  {
    JudgedSnoc(cs, c, p);
    forall k: nat
      ensures k < |cs| ==> (Scored(cs + [c], command, k) <==> Scored(cs, command, k))
    {
      ScoredSnoc(cs, c, command, k);
    }
  }

  lemma TwiceIs(cs: seq<Check>, c: Check, tr: Track, best: nat, no: nat)
    requires Remembers(cs, c.command, tr) && ScoreOf(c.outcome).Some?
    requires best < |cs + [c]| && ScoreOf((cs + [c])[best].outcome).Some?
    requires Measured(tr, c, no).best == ScoreAt(cs + [c], best)
    ensures Measured(tr, c, no).worse >= 2 && !(tr.have && Worse(tr.last, Judged(tr, c))) <==>
            exists p: nat {:trigger WorseTwice(cs + [c], p, best)} :: WorseTwice(cs + [c], p, best)
  {
    var more := cs + [c];
    assert more[|cs|] == c;
    JudgedIs(cs, c, tr);
    if tr.have {
      var p: nat :| LastAt(cs, c.command, tr, p);
      PriorMore(cs, c, c.command, p);
      if Worse(Judged(tr, c), Measured(tr, c, no).best) {
        BestUnmoved(tr, c, no);
      }
      assert WorseTwice(more, p, best) <==>
             Measured(tr, c, no).worse >= 2 && !Worse(tr.last, Judged(tr, c));
      forall q: nat | WorseTwice(more, q, best)
        ensures q == p
      {
        PriorUnique(more, c.command, |cs|, p);
        PriorUnique(more, c.command, |cs|, q);
      }
    } else {
      forall p: nat | IsPrior(more, c.command, |cs|, p)
        ensures Scored(cs, c.command, p)
      {
        ScoredSnoc(cs, c, c.command, p);
      }
    }
  }

  lemma SeenIs(g: Config, cs: seq<Check>, c: Check) returns (best: nat)
    requires ScoreOf(c.outcome).Some? && !Said(TrackOf(Run(g, cs), c.command), c).flaky
    ensures Seen(cs + [c], Said(TrackOf(Run(g, cs), c.command), c), best, |cs| + 1)
  {
    var more, was := cs + [c], TrackOf(Run(g, cs), c.command);
    var tr := Said(was, c);
    StatesOfRun(g, cs);
    TrackSaid(g, cs, c, c.command);
    RememberedOfRun(g, cs, c.command);
    SaidRemembers(cs, c, was);
    BestOfRun(g, cs, c.command);
    BestScored(cs, c, tr);
    var m := Measured(tr, c, |cs| + 1);
    best := m.bestCheck - 1;
    assert more[|more| - 1] == c;
    TwiceIs(cs, c, tr, best, |cs| + 1);
    NewBestIs(cs, c, tr);
  }

  lemma NewBestIs(cs: seq<Check>, c: Check, tr: Track)
    requires BestIsLeast(cs, c.command, tr) && ScoreOf(c.outcome).Some?
    ensures IsNewBest(tr, c) <==> Measured(tr, c, |cs| + 1).bestCheck - 1 == |cs|
  {
  }

  lemma FlakySaid(g: Config, cs: seq<Check>, c: Check)
    ensures Said(TrackOf(Run(g, cs), c.command), c).flaky <==> Flaky(cs + [c], c.command)
  {
    FlakyOfRun(g, cs, c.command);
    LastContradicts(cs, c, TrackOf(Run(g, cs), c.command));
    FlakySnoc(cs, c, c.command);
  }

  // One decision, in terms of what the judge holds.
  lemma GoBackIs(tr: Track, c: Check, no: nat, oscillated: bool, count: nat, attempts: nat)
    requires ScoreOf(c.outcome).Some?
    ensures var b := GoBack(tr, c, no, oscillated);
            var d := if Fails(c.outcome) then Climb(b, count, attempts) else b;
            var m := Measured(tr, c, no);
            var twice := m.worse >= 2 && !(tr.have && Worse(tr.last, Judged(tr, c)));
            var away := m.bestState != c.state;
            && (d.newBest <==> IsNewBest(tr, c))
            && (d.cut == Circle <==> oscillated)
            && (d.restore == Circle <==> oscillated && away)
            && (d.restore == TwoWorse <==> !oscillated && twice && away)
            && (d.cut == TwoWorse <==> d.restore == TwoWorse)
            && (d.cut == CameBack ==> d.ladder == 2)
            && d.restore != CameBack
  {
  }

  // THE DECISION, over the list of checks alone. Of a command that is not flaky, with `best` the
  // earliest check with the least score: a check that is scored and went round in a circle ends
  // the segment, and puts the best back if its code is another; else one that is the second
  // worse than the best does both, if the best's code is another; and nothing else goes back. A
  // new best is kept. A flaky command decides nothing.
  lemma ControlIs(g: Config, cs: seq<Check>, c: Check, best: nat)
    requires ScoreOf(c.outcome).Some? && FirstLeast(cs + [c], c.command, best)
    ensures var more, d := cs + [c], Run(g, cs + [c]).decision;
            var away := more[best].state != c.state;
            var twice := exists p: nat {:trigger WorseTwice(more, p, best)} :: WorseTwice(more, p, best);
            if Flaky(more, c.command) then d == NO_DECISION
            else
              && (d.newBest <==> best == |cs|)
              && (d.cut == Circle <==> WentRound(g, more))
              && (d.restore == Circle <==> WentRound(g, more) && away)
              && (d.restore == TwoWorse <==> !WentRound(g, more) && twice && away)
              && (d.cut == TwoWorse <==> d.restore == TwoWorse)
              && (d.cut == CameBack ==> d.ladder == 2)
              && d.restore != CameBack
  {
    var was := TrackOf(Run(g, cs), c.command);
    FlakySaid(g, cs, c);
    DecisionAfter(g, cs, c);
    if !Said(was, c).flaky {
      RoundIs(g, cs, c);
      GoBackIs(Said(was, c), c, |cs| + 1, Oscillates(Run(g, cs).states, c, g.pristine),
               CountOf(Run(g, cs), c.outcome.signature) + 1, g.attempts);
      var at := SeenIs(g, cs, c);
      FirstLeastUnique(cs + [c], c.command, at, best);
      assert (cs + [c])[|cs|] == c;
    }
  }

  // An outcome that says nothing of how bad it is puts nothing back and keeps nothing.
  lemma UnscoredDecides(g: Config, cs: seq<Check>, c: Check)
    requires ScoreOf(c.outcome).None?
    ensures var d := Run(g, cs + [c]).decision; d.restore == No && !d.newBest && d.cut in {No, CameBack}
  {
    DecisionAfter(g, cs, c);
  }

  // There is such a best as soon as a check is scored.
  lemma HasBest(g: Config, cs: seq<Check>, c: Check) returns (best: nat)
    requires ScoreOf(c.outcome).Some? && !Flaky(cs + [c], c.command)
    ensures FirstLeast(cs + [c], c.command, best)
  {
    FlakySaid(g, cs, c);
    best := SeenIs(g, cs, c);
  }

  // NO REVERT ON THE FIRST BREAK, AND NONE MISSED: of a command that is not flaky, code is taken
  // back for being worse exactly if it did not go round, two scored checks in a row were judged
  // worse than the best, the second no better than the first, and the best is other code.
  lemma RestoreNeedsTwo(g: Config, cs: seq<Check>, c: Check)
    ensures Run(g, cs + [c]).decision.restore == TwoWorse <==>
            && ScoreOf(c.outcome).Some? && !Flaky(cs + [c], c.command) && !WentRound(g, cs + [c])
            && exists p: nat, best: nat {:trigger TakenBack(cs + [c], p, best)} :: TakenBack(cs + [c], p, best)
  {
    var more := cs + [c];
    if ScoreOf(c.outcome).None? {
      UnscoredDecides(g, cs, c);
    } else if Flaky(more, c.command) {
      FlakySaid(g, cs, c);
      DecisionAfter(g, cs, c);
    } else {
      var best := HasBest(g, cs, c);
      ControlIs(g, cs, c, best);
      assert more[|cs|] == c;
      forall p: nat, b: nat | TakenBack(more, p, b)
        ensures b == best
      {
        FirstLeastUnique(more, c.command, b, best);
      }
      forall p: nat | WorseTwice(more, p, best) && more[best].state != c.state
        ensures TakenBack(more, p, best)
      {
      }
    }
  }

  ghost predicate TakenBack(cs: seq<Check>, p: nat, best: nat)
    requires cs != []
  {
    var c := cs[|cs| - 1];
    && FirstLeast(cs, c.command, best) && best < |cs| && ScoreOf(cs[best].outcome).Some?
    && WorseTwice(cs, p, best) && cs[best].state != c.state
  }

  // A code that does not build is worse than any that does, any failure worse than none, and of
  // two that build the one with more failing tests is worse.
  lemma ScoresAre(o: Outcome, p: Outcome)
    requires ScoreOf(o).Some? && ScoreOf(p).Some?
    ensures o.kind in {Build, Vet} && p.kind in {Pass, Test, Panic} ==> Worse(ScoreOf(o).value, ScoreOf(p).value)
    ensures o.kind in {Test, Panic} && p.kind == Pass ==> Worse(ScoreOf(o).value, ScoreOf(p).value)
    ensures o.kind in {Test, Panic} && p.kind in {Test, Panic} ==>
              (Worse(ScoreOf(o).value, ScoreOf(p).value) <==> o.tests > p.tests && o.tests > 1)
    ensures o.kind in {Build, Vet} && p.kind in {Build, Vet} ==>
              (Worse(ScoreOf(o).value, ScoreOf(p).value) <==> o.errors > p.errors && o.errors > 1)
    ensures Worse(ScoreOf(o).value, ScoreOf(p).value) ==> !Worse(ScoreOf(p).value, ScoreOf(o).value)
  {
  }

  // ---------------------------------------------------------------- stopping

  // How many checks failed with a signature in `sigs`.
  function FailsIn(cs: seq<Check>, sigs: set<string>): nat {
    if cs == [] then 0
    else
      FailsIn(cs[..|cs| - 1], sigs) +
      if Fails(cs[|cs| - 1].outcome) && cs[|cs| - 1].outcome.signature in sigs then 1 else 0
  }

  ghost function Signatures(cs: seq<Check>): set<string> {
    set c | c in cs && Fails(c.outcome) :: c.outcome.signature
  }

  // No command has answered twice differently for one state of the code.
  ghost predicate NoneFlaky(s: State) {
    forall command :: command in s.tracks ==> !s.tracks[command].flaky
  }

  lemma FailsSnoc(cs: seq<Check>, c: Check, sigs: set<string>)
    ensures FailsIn(cs + [c], sigs) == FailsIn(cs, sigs) + if Fails(c.outcome) && c.outcome.signature in sigs then 1 else 0
  {
    assert (cs + [c])[..|cs|] == cs;
  }

  lemma {:induction false} CountIsFails(g: Config, cs: seq<Check>, sig: string)
    ensures CountOf(Run(g, cs), sig) == FailsIn(cs, {sig})
  {
    if cs != [] {
      var init, c := cs[..|cs| - 1], cs[|cs| - 1];
      CountIsFails(g, init, sig);
    }
  }

  lemma NoneFlakyBefore(g: Config, cs: seq<Check>, c: Check)
    requires NoneFlaky(Run(g, cs + [c]))
    ensures NoneFlaky(Run(g, cs)) && !Said(TrackOf(Run(g, cs), c.command), c).flaky
  {
    RunSnoc(g, cs, c);
    var was, now := Run(g, cs), Run(g, cs + [c]);
    assert c.command in now.tracks;
    forall command | command in was.tracks
      ensures !was.tracks[command].flaky
    {
      assert command in now.tracks;
    }
  }

  // THE LADDER: with no flaky command, the n-th time a failure is seen decides nothing up to
  // `attempts`, then asks why, then starts afresh, and from then on stops.
  lemma LadderIs(g: Config, cs: seq<Check>, c: Check)
    requires NoneFlaky(Run(g, cs + [c])) && Fails(c.outcome)
    ensures var n, d := FailsIn(cs + [c], {c.outcome.signature}), Run(g, cs + [c]).decision;
            && (d.stop <==> n >= g.attempts + 2)
            && (d.ladder == 2 <==> n == g.attempts + 1)
            && (d.ladder == 1 <==> n == g.attempts)
            && (n == g.attempts + 1 ==> d.cut != No)
  {
    RunSnoc(g, cs, c);
    NoneFlakyBefore(g, cs, c);
    CountIsFails(g, cs, c.outcome.signature);
    FailsSnoc(cs, c, {c.outcome.signature});
  }

  lemma {:induction false} FailsApart(cs: seq<Check>, sigs: set<string>, sig: string)
    requires sig in sigs
    ensures FailsIn(cs, sigs) == FailsIn(cs, sigs - {sig}) + FailsIn(cs, {sig})
  {
    if cs != [] {
      FailsApart(cs[..|cs| - 1], sigs, sig);
    }
  }

  lemma {:induction false} FailsInNone(cs: seq<Check>)
    ensures FailsIn(cs, {}) == 0
  {
    if cs != [] {
      FailsInNone(cs[..|cs| - 1]);
    }
  }

  // If no failure is seen more than m times, there are at most m for each.
  lemma {:induction false} FewOfEach(cs: seq<Check>, sigs: set<string>, m: nat)
    requires forall sig :: sig in sigs ==> FailsIn(cs, {sig}) <= m
    ensures FailsIn(cs, sigs) <= Times(|sigs|, m)
    decreases |sigs|
  {
    if sigs == {} {
      FailsInNone(cs);
    } else {
      var sig :| sig in sigs;
      FailsApart(cs, sigs, sig);
      assert |sigs - {sig}| == |sigs| - 1;
      FewOfEach(cs, sigs - {sig}, m);
    }
  }

  // The check that makes the count of a failure what it is.
  lemma {:induction false} LastTime(cs: seq<Check>, sig: string) returns (i: nat)
    requires FailsIn(cs, {sig}) > 0
    ensures i < |cs| && Fails(cs[i].outcome) && cs[i].outcome.signature == sig
    ensures FailsIn(cs[..i + 1], {sig}) == FailsIn(cs, {sig})
  {
    var n := |cs| - 1;
    if Fails(cs[n].outcome) && cs[n].outcome.signature == sig {
      i := n;
      assert cs[..n + 1] == cs;
    } else {
      i := LastTime(cs[..n], sig);
      assert cs[..n][..i + 1] == cs[..i + 1];
    }
  }

  lemma {:induction false} NoneFlakyAt(g: Config, cs: seq<Check>, n: nat)
    requires NoneFlaky(Run(g, cs)) && n <= |cs|
    ensures NoneFlaky(Run(g, cs[..n]))
    decreases |cs|
  {
    if n == |cs| {
      assert cs[..n] == cs;
    } else {
      var init, c := cs[..|cs| - 1], cs[|cs| - 1];
      assert cs == init + [c];
      NoneFlakyBefore(g, init, c);
      NoneFlakyAt(g, init, n);
      assert init[..n] == cs[..n];
    }
  }

  // Every failing check counts: all of them have one of the signatures.
  lemma {:induction false} AllFailsCount(cs: seq<Check>, sigs: set<string>)
    requires Signatures(cs) <= sigs
    ensures FailsIn(cs, sigs) == FailCount(cs)
  {
    if cs != [] {
      var init, c := cs[..|cs| - 1], cs[|cs| - 1];
      assert cs == init + [c];
      assert c in cs;
      assert Signatures(init) <= Signatures(cs);
      AllFailsCount(init, sigs);
    }
  }

  function FailCount(cs: seq<Check>): nat {
    if cs == [] then 0 else FailCount(cs[..|cs| - 1]) + if Fails(cs[|cs| - 1].outcome) then 1 else 0
  }

  lemma StopsAt(g: Config, cs: seq<Check>, sig: string) returns (n: nat)
    requires NoneFlaky(Run(g, cs)) && FailsIn(cs, {sig}) > g.attempts + 1
    ensures 0 < n <= |cs| && Run(g, cs[..n]).decision.stop
  {
    var i := LastTime(cs, sig);
    n := i + 1;
    NoneFlakyAt(g, cs, n);
    assert cs[..n] == cs[..i] + [cs[i]];
    LadderIs(g, cs[..i], cs[i]);
  }

  // IT DOES STOP: with no flaky command and S different failures, by failing check number
  // S * (attempts + 1) + 1.
  lemma StopsInTime(g: Config, cs: seq<Check>)
    requires NoneFlaky(Run(g, cs))
    requires FailCount(cs) > |Signatures(cs)| * (g.attempts + 1)
    ensures exists n: nat :: 0 < n <= |cs| && Run(g, cs[..n]).decision.stop
  {
    var sigs := Signatures(cs);
    AllFailsCount(cs, sigs);
    TimesIs(|sigs|, g.attempts + 1);
    if forall sig :: sig in sigs ==> FailsIn(cs, {sig}) <= g.attempts + 1 {
      FewOfEach(cs, sigs, g.attempts + 1);
    } else {
      var sig :| sig in sigs && FailsIn(cs, {sig}) > g.attempts + 1;
      var n := StopsAt(g, cs, sig);
    }
  }
}
