/**
 The judge of a long task's checks (daemon/correction.go): what each check says about the
 attempts before it, and whether to go back to better code, start afresh, or stop.
 */
module CorrectionJudge {
  import opened Numbers
  import opened Wrappers

  datatype Kind = Pass | Build | Vet | Test | Panic | Unread

  datatype Outcome = Outcome(kind: Kind, failing: seq<string>, tests: nat, errors: nat, signature: string)

  // A check that ran: on what code, whether the model had just restored a checkpoint, and
  // which failing tests it wrote itself.
  datatype Check = Check(command: string, state: string, outcome: Outcome, restored: bool, ownTest: string -> bool)

  // ---------------------------------------------------------------- scores

  datatype Score = Score(broken: nat, failing: nat)

  const ZERO := Score(0, 0)

  predicate Worse(a: Score, b: Score) {
    if a.broken != b.broken then a.broken > b.broken else a.failing > b.failing
  }

  // An outcome that says how bad it is.
  function ScoreOf(o: Outcome): Option<Score> {
    match o.kind
    case Pass => Some(ZERO)
    case Build | Vet => Some(Score(Max(1, o.errors), 0))
    case Test | Panic => Some(Score(0, Max(1, o.tests)))
    case Unread => None
  }

  predicate Fails(o: Outcome) {
    o.kind != Pass && o.signature != ""
  }

  // ---------------------------------------------------------------- what is remembered

  datatype Answer = Answer(kind: Kind, signature: string)

  datatype Track = Track(
    have: bool, last: Score, lastFailing: seq<string>, flaky: bool, said: map<string, Answer>,
    haveBest: bool, best: Score, bestCheck: nat, bestState: string, worse: nat)

  const NEW_TRACK := Track(false, ZERO, [], false, map[], false, ZERO, 0, "", 0)

  datatype Why = No | Circle | TwoWorse | CameBack

  // newBest: the code is to be kept as the command's best; restore: why to put the best back;
  // cut: why to end the segment; stop: end the task; ladder: how far a failure that keeps
  // coming back has got.
  datatype Decision = Decision(newBest: bool, restore: Why, cut: Why, stop: bool, ladder: nat)

  const NO_DECISION := Decision(false, No, No, false, 0)

  datatype State = State(tracks: map<string, Track>, states: seq<string>, sigCount: map<string, nat>, decision: Decision)

  const START := State(map[], [], map[], NO_DECISION)

  function TrackOf(s: State, command: string): Track {
    if command in s.tracks then s.tracks[command] else NEW_TRACK
  }

  function CountOf(s: State, signature: string): nat {
    if signature in s.sigCount then s.sigCount[signature] else 0
  }

  // ---------------------------------------------------------------- one check

  // One state, one command, two answers.
  function Said(tr: Track, c: Check): Track {
    var answer := Answer(c.outcome.kind, c.outcome.signature);
    tr.(flaky := tr.flaky || (c.state in tr.said && tr.said[c.state] != answer), said := tr.said[c.state := answer])
  }

  // Back to code it had left, other than by a checkpoint or by starting over.
  predicate Oscillates(states: seq<string>, c: Check, pristine: string) {
    && states != [] && states[|states| - 1] != c.state && !c.restored && c.state != pristine
    && c.state in states[..|states| - 1]
  }

  function OwnCount(names: seq<string>, before: seq<string>, own: string -> bool): nat {
    if names == [] then 0
    else OwnCount(names[..|names| - 1], before, own) +
         if names[|names| - 1] !in before && own(names[|names| - 1]) then 1 else 0
  }

  // The score a result is judged by: a test the model has just written does not count.
  function Judged(tr: Track, c: Check): Score {
    match ScoreOf(c.outcome)
    case None => ZERO
    case Some(score) =>
      if c.outcome.kind == Pass || !tr.have then score
      else Score(score.broken, Max(0, score.failing - OwnCount(c.outcome.failing, tr.lastFailing, c.ownTest)))
  }

  predicate IsNewBest(tr: Track, c: Check) {
    ScoreOf(c.outcome).Some? && (!tr.haveBest || Worse(tr.best, ScoreOf(c.outcome).value))
  }

  // Check number `no` measured against the best.
  function Measured(tr: Track, c: Check, no: nat): Track {
    match ScoreOf(c.outcome)
    case None => tr
    case Some(score) =>
      var kept := if IsNewBest(tr, c) then tr.(best := score, haveBest := true, bestCheck := no, bestState := c.state) else tr;
      kept.(worse := if Worse(Judged(tr, c), kept.best) then tr.worse + 1 else 0)
  }

  // The first half of decideControl: go back to the best?
  function GoBack(tr: Track, c: Check, no: nat, oscillated: bool): Decision {
    if ScoreOf(c.outcome).None? then NO_DECISION
    else
      var m := Measured(tr, c, no);
      var away := m.bestState != c.state;
      var improving := tr.have && Worse(tr.last, Judged(tr, c));
      var plain := NO_DECISION.(newBest := IsNewBest(tr, c));
      if oscillated then plain.(cut := Circle, restore := if away then Circle else No)
      else if m.worse >= 2 && !improving && away then plain.(cut := TwoWorse, restore := TwoWorse)
      else plain
  }

  // The second half: a failure that keeps coming back climbs the ladder.
  function Climb(d: Decision, count: nat, attempts: nat): Decision {
    if count >= attempts + 2 then d.(stop := true)
    else if count == attempts + 1 then d.(ladder := 2, cut := if d.cut == No then CameBack else d.cut)
    else if count == attempts then d.(ladder := 1)
    else d
  }

  // What the next check of the command is compared with.
  function Compared(tr: Track, c: Check): Track {
    if ScoreOf(c.outcome).None? then tr
    else tr.(have := true, last := ScoreOf(c.outcome).value, lastFailing := c.outcome.failing)
  }

  function Counted(s: State, c: Check): map<string, nat> {
    if Fails(c.outcome) then s.sigCount[c.outcome.signature := CountOf(s, c.outcome.signature) + 1] else s.sigCount
  }

  // observe, as a function.
  function Observed(s: State, attempts: nat, pristine: string, c: Check): State {
    var no := |s.states| + 1;
    var tr := Said(TrackOf(s, c.command), c);
    var counts := Counted(s, c);
    var states := s.states + [c.state];
    if tr.flaky then State(s.tracks[c.command := tr], states, counts, NO_DECISION)
    else
      var d := GoBack(tr, c, no, Oscillates(s.states, c, pristine));
      State(s.tracks[c.command := Compared(Measured(tr, c, no), c)], states, counts,
            if Fails(c.outcome) then Climb(d, CountOf(s, c.outcome.signature) + 1, attempts) else d)
  }

  // ---------------------------------------------------------------- the judge

  class Judge {
    var checks: nat
    var tracks: map<string, Track>
    var states: seq<string>
    var sigCount: map<string, nat>
    var decision: Decision
    const attempts: nat
    const pristine: string

    ghost predicate Valid()
      reads this
    {
      checks == |states|
    }

    ghost function Now(): State
      reads this
    {
      State(tracks, states, sigCount, decision)
    }

    constructor (attempts: nat, pristine: string)
      ensures Valid() && Now() == START && this.attempts == attempts && this.pristine == pristine
    {
      this.attempts := attempts;
      this.pristine := pristine;
      checks, tracks, states, sigCount, decision := 0, map[], [], map[], NO_DECISION;
    }

    method WentRound(c: Check) returns (oscillated: bool)
      ensures oscillated == Oscillates(states, c, pristine)
    {
      oscillated := false;
      var n := |states|;
      if n > 0 && states[n - 1] != c.state && !c.restored && c.state != pristine {
        var k := n - 2;
        while k >= 0
          invariant -1 <= k <= n - 2
          invariant forall i :: k < i <= n - 2 ==> states[i] != c.state
        {
          if states[k] == c.state {
            assert states[..n - 1][k] == c.state;
            return true;
          }
          k := k - 1;
        }
      }
    }

    method JudgedScore(tr: Track, c: Check, score: Score) returns (judged: Score)
      requires ScoreOf(c.outcome) == Some(score)
      ensures judged == Judged(tr, c)
    {
      judged := score;
      if c.outcome.kind != Pass && tr.have {
        var own: nat := 0;
        for i := 0 to |c.outcome.failing|
          invariant own == OwnCount(c.outcome.failing[..i], tr.lastFailing, c.ownTest)
        {
          var name := c.outcome.failing[i];
          assert c.outcome.failing[..i + 1][..i] == c.outcome.failing[..i];
          if name !in tr.lastFailing && c.ownTest(name) {
            own := own + 1;
          }
        }
        assert c.outcome.failing[..|c.outcome.failing|] == c.outcome.failing;
        judged := judged.(failing := Max(0, judged.failing - own));
      }
    }

    method NoteAnswer(was: Track, c: Check) returns (tr: Track)
      ensures tr == Said(was, c)
    {
      tr := was;
      var answer := Answer(c.outcome.kind, c.outcome.signature);
      if c.state in tr.said && tr.said[c.state] != answer && !tr.flaky {
        tr := tr.(flaky := true);
      }
      tr := tr.(said := tr.said[c.state := answer]);
    }

    method CountFailure(c: Check) returns (count: nat)
      modifies this`sigCount
      ensures sigCount == Counted(old(Now()), c)
      ensures Fails(c.outcome) ==> count == CountOf(old(Now()), c.outcome.signature) + 1
    {
      count := if c.outcome.signature in sigCount then sigCount[c.outcome.signature] else 0;
      if Fails(c.outcome) {
        count := count + 1;
        sigCount := sigCount[c.outcome.signature := count];
      }
    }

    // observe
    method Observe(c: Check)
      requires Valid()
      modifies this
      ensures Valid() && Now() == Observed(old(Now()), attempts, pristine, c)
    {
      checks := checks + 1;
      var tr := NoteAnswer(if c.command in tracks then tracks[c.command] else NEW_TRACK, c);
      var oscillated := WentRound(c);
      var count := CountFailure(c);
      states := states + [c.state];
      decision := NO_DECISION;
      if tr.flaky {
        tracks := tracks[c.command := tr];
        return;
      }
      tr := DecideControl(c, tr, oscillated, count);
      if ScoreOf(c.outcome).Some? {
        tr := tr.(have := true, last := ScoreOf(c.outcome).value, lastFailing := c.outcome.failing);
      }
      tracks := tracks[c.command := tr];
    }

    // decideControl
    method DecideControl(c: Check, was: Track, oscillated: bool, count: nat) returns (tr: Track)
      requires decision == NO_DECISION
      modifies this`decision
      ensures tr == Measured(was, c, checks)
      ensures var d := GoBack(was, c, checks, oscillated);
              decision == if Fails(c.outcome) then Climb(d, count, attempts) else d
    {
      tr := was;
      var d := decision;
      if ScoreOf(c.outcome).Some? {
        var score := ScoreOf(c.outcome).value;
        var judged := JudgedScore(tr, c, score);
        var improving := tr.have && Worse(tr.last, judged);
        if !tr.haveBest || Worse(tr.best, score) {
          tr := tr.(best := score, haveBest := true, bestCheck := checks, bestState := c.state);
          d := d.(newBest := true);
        }
        tr := tr.(worse := if Worse(judged, tr.best) then tr.worse + 1 else 0);
        var away := tr.bestState != c.state;
        if oscillated {
          d := d.(cut := Circle);
          if away {
            d := d.(restore := Circle);
          }
        } else if tr.worse >= 2 && !improving && away {
          d := d.(restore := TwoWorse, cut := TwoWorse);
        }
      }
      if Fails(c.outcome) {
        if count >= attempts + 2 {
          d := d.(stop := true);
        } else if count == attempts + 1 {
          d := d.(ladder := 2, cut := if d.cut == No then CameBack else d.cut);
        } else if count == attempts {
          d := d.(ladder := 1);
        }
      }
      decision := d;
    }
  }
}
