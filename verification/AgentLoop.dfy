/**
 How many times one turn may call the model (daemon/agentloop.go, daemon/patience.go,
 daemon/orchestrator.go): the ceilings on a loop and on a pipeline of loops, the call kept back
 for the answer, and the requests a busy provider refused, which are not charged.
 */
module AgentLoop {
  import opened Numbers

  // What a reply put on the screen: nothing, only white space, or words.
  datatype Text = Silent | Blank | Shown

  // How a batch of tool calls ended: all were answered, the user cancelled at a prompt, or the
  // client hung up between two of them.
  datatype BatchEnd = Answered | Cancelled | HungUp

  // Whether waiting can cure a failure of the provider: refused outright for its rate, not
  // reached or silent, or anything else.
  datatype Cure = RateLimited | Unavailable | Hopeless

  // What came back from one call, and what the loop can tell of it: a batch of tool calls (some
  // of which may have run), nothing at all, words (that may hedge about live facts, or be cut
  // off), a refusal as too large (of the answer's own length, or one that fits when sent again
  // smaller), a failure of the provider (with room left for a wait), or the end of the client.
  // `lost` says that a notice to the user could not be delivered.
  datatype Reply =
    | Tools(said: Text, ran: bool, end: BatchEnd)
    | Empty
    | Words(hedged: bool, cutOff: bool, lost: bool)
    | TooLarge(said: Text, output: bool, fits: bool, lost: bool)
    | Broken(said: Text, cure: Cure, room: bool)
    | Gone

  datatype Outcome = Finished | Incomplete | Failed

  // Everything that decides a run besides the ceilings: the replies, whether one of the other
  // limits (time, bytes, tokens, money, repeats, stalls) is reached before request n, and
  // whether the deadline has passed by then.
  datatype World = World(reply: nat -> Reply, otherStop: nat -> bool, late: nat -> bool)

  // The patience with a busy provider is in seconds.
  datatype Ceilings = Ceilings(maxIterations: int, maxTurnIterations: int, patience: nat)

  // emptyInARow, nudgedForGrounding, the ledger's shrunk, whether the answer has any text and
  // whether any tool has run, and providerWaits.
  datatype Memory = Memory(emptyInARow: nat, nudged: bool, shrunk: bool, said: bool, ran: bool, waits: nat)

  const FRESH := Memory(0, false, false, false, false, 0)

  // `AskAgain` goes on too, but the call it answers is taken back.
  datatype Next = GoOn(memory: Memory) | AskAgain(memory: Memory) | End(outcome: Outcome, shrunk: bool)

  // ---------------------------------------------------------------- waiting for the provider

  const MAX_PROVIDER_WAITS := 3

  function WaitFor(n: nat): nat { if n == 0 then 60 else 120 }

  function WaitedBefore(n: nat): nat {
    if n == 0 then 0 else WaitedBefore(n - 1) + WaitFor(n - 1)
  }

  predicate MayWait(patience: nat, waits: nat) {
    waits < MAX_PROVIDER_WAITS && WaitedBefore(waits) + WaitFor(waits) <= patience
  }

  // The waits that a patience pays for: a minute, and two of two minutes.
  function MaxWaits(patience: nat): nat {
    if patience < 60 then 0 else if patience < 180 then 1 else if patience < 300 then 2 else 3
  }

  lemma WaitsPaidFor(patience: nat, n: nat)
    ensures MayWait(patience, n) <==> n < MaxWaits(patience)
  {
    assert WaitedBefore(1) == 60;
    assert WaitedBefore(2) == 180;
  }

  // ---------------------------------------------------------------- one step

  // waitOutProvider, and what its failure to wait comes to.
  function AfterFailure(patience: nat, m: Memory, said: Text, cure: Cure, room: bool): Next {
    var next := m.(said := m.said || said != Silent);
    if cure != Hopeless && m.ran && said != Shown && room && MayWait(patience, m.waits) then
      var waited := next.(waits := m.waits + 1);
      if cure == RateLimited then AskAgain(waited) else GoOn(waited)
    else
      End(if next.said || m.ran then Incomplete else Failed, m.shrunk)
  }

  // What one reply does to the loop.
  function After(patience: nat, m: Memory, r: Reply): Next {
    match r
    case Tools(said, ran, end) =>
      (match end
       case Answered => GoOn(m.(emptyInARow := 0, said := m.said || said != Silent, ran := m.ran || ran))
       case Cancelled => End(Incomplete, m.shrunk)
       case HungUp => End(Failed, m.shrunk))
    case Empty => if m.emptyInARow < 2 then GoOn(m.(emptyInARow := m.emptyInARow + 1)) else End(Incomplete, m.shrunk)
    case Words(hedged, cutOff, lost) =>
      if hedged && !m.nudged then
        if lost then End(Failed, m.shrunk) else GoOn(m.(emptyInARow := 0, nudged := true, said := true))
      else End(if cutOff then Incomplete else Finished, m.shrunk)
    case TooLarge(said, output, fits, lost) =>
      if said != Silent || output || m.shrunk then AfterFailure(patience, m, said, Hopeless, false)
      else if !fits then AfterFailure(patience, m.(shrunk := true), said, Hopeless, false)
      else if lost then End(Failed, true)
      else GoOn(m.(shrunk := true, said := true))
    case Broken(said, cure, room) => AfterFailure(patience, m, said, cure, room)
    case Gone => End(Failed, m.shrunk)
  }

  // How replies are answered: whatever is decided, a call is only taken back for a wait, and
  // there are at most so many of those.
  ghost predicate Waiting(after: (Memory, Reply) -> Next) {
    forall m: Memory, r: Reply {:trigger after(m, r)} ::
      && (after(m, r).GoOn? ==> after(m, r).memory.waits >= m.waits)
      && (after(m, r).AskAgain? ==> after(m, r).memory.waits > m.waits && m.waits < MAX_PROVIDER_WAITS)
  }

  type Rule = after: (Memory, Reply) -> Next | Waiting(after) witness (m, r) => End(Failed, false)

  // The program's own rule.
  function Rules(patience: nat): Rule {
    (m, r) => After(patience, m, r)
  }

  // budgetStop: the call that ends a stopped turn is kept back once one has been made.
  predicate Stops(c: Ceilings, preAnswer: bool, prior: nat, calls: nat, sent: nat, w: World) {
    var reserve := if !preAnswer && calls > 0 then 1 else 0;
    prior + calls >= c.maxTurnIterations - reserve || calls + 1 > c.maxIterations - reserve || w.otherStop(sent)
  }

  // `calls` are the requests charged, `refused` those taken back.
  datatype Spent = Spent(calls: nat, refused: nat, wrapUps: nat, outcome: Outcome, shrunk: bool)

  function Billed(s: Spent): nat { s.calls + s.wrapUps }

  function Requests(s: Spent): nat { s.calls + s.refused + s.wrapUps }

  // runAgentLoop's requests, as a function of the world.
  function Loop(c: Ceilings, after: Rule, preAnswer: bool, prior: nat, w: World, m: Memory, calls: nat, refused: nat): Spent
    decreases Max(0, MAX_PROVIDER_WAITS - m.waits), Max(0, c.maxTurnIterations - calls)
  {
    var sent := calls + refused;
    if Stops(c, preAnswer, prior, calls, sent, w) then
      Spent(calls, refused, if calls > 0 && !preAnswer && !w.late(sent) then 1 else 0, Incomplete, m.shrunk)
    else
      match after(m, w.reply(sent))
      case End(outcome, shrunk) => Spent(calls + 1, refused, 0, outcome, shrunk)
      case GoOn(next) => Loop(c, after, preAnswer, prior, w, next, calls + 1, refused)
      case AskAgain(next) => Loop(c, after, preAnswer, prior, w, next, calls, refused + 1)
  }

  method RunAgentLoop(c: Ceilings, after: Rule, preAnswer: bool, prior: nat, w: World, shrunk: bool) returns (s: Spent)
    ensures s == Loop(c, after, preAnswer, prior, w, FRESH.(shrunk := shrunk), 0, 0)
  {
    var m := FRESH.(shrunk := shrunk);
    var calls: nat, refused: nat := 0, 0;
    var iteration: nat := 1;
    while true
      invariant iteration == calls + 1
      invariant Loop(c, after, preAnswer, prior, w, m, calls, refused)
             == Loop(c, after, preAnswer, prior, w, FRESH.(shrunk := shrunk), 0, 0)
      decreases Max(0, MAX_PROVIDER_WAITS - m.waits), Max(0, c.maxTurnIterations - calls)
    {
      var reserve := 0;
      if !preAnswer && calls > 0 {
        reserve := 1;
      }
      if prior + calls >= c.maxTurnIterations - reserve || iteration > c.maxIterations - reserve
         || w.otherStop(calls + refused) {
        var wrapUps: nat := 0;
        if calls > 0 && !preAnswer && !w.late(calls + refused) {
          wrapUps := 1;
        }
        return Spent(calls, refused, wrapUps, Incomplete, m.shrunk);
      }
      var next := after(m, w.reply(calls + refused));
      calls := calls + 1;
      if next.End? {
        return Spent(calls, refused, 0, next.outcome, next.shrunk);
      }
      m := next.memory;
      if next.AskAgain? {
        calls, iteration, refused := calls - 1, iteration - 1, refused + 1;
      }
      iteration := iteration + 1;
    }
  }

  // ---------------------------------------------------------------- one loop

  // Within its ceilings, but that a first step is always taken; and nothing is asked again
  // but where a second step was allowed, at most as often as the patience pays for.
  ghost predicate WithinCeilings(c: Ceilings, preAnswer: bool, prior: nat, s: Spent) {
    var reserve := if preAnswer then 0 else 1;
    && (s.calls >= 1 ==> prior < c.maxTurnIterations && 1 <= c.maxIterations)
    && (s.calls >= 2 ==> prior + s.calls <= c.maxTurnIterations - reserve && s.calls <= c.maxIterations - reserve)
    && (s.refused >= 1 ==> s.calls >= 1 && prior + 2 <= c.maxTurnIterations - reserve && 2 <= c.maxIterations - reserve)
    && s.refused <= MaxWaits(c.patience)
    && s.wrapUps <= 1
    && (s.wrapUps == 1 ==> s.calls >= 1 && !preAnswer && s.outcome == Incomplete)
  }

  // A tool has run only in a call that was charged, and what was taken back was waited for.
  ghost predicate Sound(patience: nat, m: Memory, calls: nat, refused: nat) {
    (m.ran ==> calls >= 1) && refused <= m.waits <= MaxWaits(patience)
  }

  // A rule that takes a call back only once a tool has run, and waits for no longer than the
  // patience lasts.
  ghost predicate Patient(after: Rule, patience: nat) {
    forall m: Memory, r: Reply {:trigger after(m, r)} :: m.waits <= MaxWaits(patience) ==>
      && (after(m, r).GoOn? ==> after(m, r).memory.waits <= MaxWaits(patience))
      && (after(m, r).AskAgain? ==> m.ran && after(m, r).memory.waits == m.waits + 1 <= MaxWaits(patience))
  }

  lemma FailureIsPatient(patience: nat, m: Memory, said: Text, cure: Cure, room: bool)
    requires m.waits <= MaxWaits(patience)
    ensures var next := AfterFailure(patience, m, said, cure, room);
            && (next.GoOn? ==> next.memory.waits <= MaxWaits(patience))
            && (next.AskAgain? ==> m.ran && next.memory.waits == m.waits + 1 <= MaxWaits(patience))
  {
    WaitsPaidFor(patience, m.waits);
  }

  lemma RulesArePatient(patience: nat)
    ensures Patient(Rules(patience), patience)
  {
    forall m: Memory, r: Reply | m.waits <= MaxWaits(patience)
      ensures After(patience, m, r).GoOn? ==> After(patience, m, r).memory.waits <= MaxWaits(patience)
      ensures After(patience, m, r).AskAgain? ==>
                m.ran && After(patience, m, r).memory.waits == m.waits + 1 <= MaxWaits(patience)
    {
      if r.Broken? {
        FailureIsPatient(patience, m, r.said, r.cure, r.room);
      }
    }
  }

  // So does stopping, with the answer if one is due.
  lemma StoppedWithin(c: Ceilings, preAnswer: bool, prior: nat, calls: nat, refused: nat, wrapUps: nat, shrunk: bool)
    requires WithinCeilings(c, preAnswer, prior, Spent(calls, refused, 0, Finished, false))
    requires wrapUps <= 1 && (wrapUps == 1 ==> calls >= 1 && !preAnswer)
    ensures WithinCeilings(c, preAnswer, prior, Spent(calls, refused, wrapUps, Incomplete, shrunk))
  {
  }

  // A step that the ceilings let through leaves the loop within them.
  lemma StepWithin(c: Ceilings, preAnswer: bool, prior: nat, w: World, calls: nat, refused: nat, done: Spent)
    requires WithinCeilings(c, preAnswer, prior, Spent(calls, refused, 0, Finished, false))
    requires !Stops(c, preAnswer, prior, calls, calls + refused, w)
    requires done.wrapUps == 0
    requires || (done.calls == calls + 1 && done.refused == refused)
             || (1 <= done.calls == calls && done.refused == refused + 1 <= MaxWaits(c.patience))
    ensures WithinCeilings(c, preAnswer, prior, done)
  {
  }

  lemma {:induction false} LoopWithin(c: Ceilings, after: Rule, preAnswer: bool, prior: nat, w: World, m: Memory,
                                      calls: nat, refused: nat)
    requires Patient(after, c.patience)
    requires Sound(c.patience, m, calls, refused)
    requires WithinCeilings(c, preAnswer, prior, Spent(calls, refused, 0, Finished, false))
    ensures WithinCeilings(c, preAnswer, prior, Loop(c, after, preAnswer, prior, w, m, calls, refused))
    decreases Max(0, MAX_PROVIDER_WAITS - m.waits), Max(0, c.maxTurnIterations - calls)
  {
    var sent := calls + refused;
    if Stops(c, preAnswer, prior, calls, sent, w) {
      var wrapUps := if calls > 0 && !preAnswer && !w.late(sent) then 1 else 0;
      StoppedWithin(c, preAnswer, prior, calls, refused, wrapUps, m.shrunk);
    } else {
      match after(m, w.reply(sent))
      case GoOn(next) =>
        StepWithin(c, preAnswer, prior, w, calls, refused, Spent(calls + 1, refused, 0, Finished, false));
        LoopWithin(c, after, preAnswer, prior, w, next, calls + 1, refused);
        assert Loop(c, after, preAnswer, prior, w, m, calls, refused)
            == Loop(c, after, preAnswer, prior, w, next, calls + 1, refused);
      case AskAgain(next) =>
        StepWithin(c, preAnswer, prior, w, calls, refused, Spent(calls, refused + 1, 0, Finished, false));
        LoopWithin(c, after, preAnswer, prior, w, next, calls, refused + 1);
        assert Loop(c, after, preAnswer, prior, w, m, calls, refused)
            == Loop(c, after, preAnswer, prior, w, next, calls, refused + 1);
      case End(outcome, shrunk) =>
        StepWithin(c, preAnswer, prior, w, calls, refused, Spent(calls + 1, refused, 0, outcome, shrunk));
    }
  }

  // What a turn of one loop may be charged for, and how many requests it may make: none below
  // a ceiling of one, two for a ceiling of one, and from three on those refused besides.
  function MostBilled(c: Ceilings): nat {
    var n := Min(c.maxIterations, c.maxTurnIterations);
    if n <= 0 then 0 else Max(2, n)
  }

  function MostRequests(c: Ceilings): nat {
    var n := Min(c.maxIterations, c.maxTurnIterations);
    if n < 3 then MostBilled(c) else n + MaxWaits(c.patience)
  }

  // THE NUMBER IN THE CONFIGURATION IS THE NUMBER OF CALLS CHARGED: no more than the smaller
  // ceiling, the answer at the end included -- but that a ceiling of one still bills two. The
  // requests refused for their rate come on top, no more than the patience pays for.
  lemma StandaloneWithin(c: Ceilings, w: World)
    ensures var s := Loop(c, Rules(c.patience), false, 0, w, FRESH, 0, 0);
            Billed(s) <= MostBilled(c) && s.refused <= MaxWaits(c.patience) && Requests(s) <= MostRequests(c)
  {
    RulesArePatient(c.patience);
    LoopWithin(c, Rules(c.patience), false, 0, w, FRESH, 0, 0);
  }

  const BATCH := Tools(Silent, true, Answered)

  const REFUSED := Broken(Silent, RateLimited, true)

  // A provider that refuses for its rate, after one batch of tools, as often as it is waited
  // for; a model that then goes on calling tools, or says its last words.
  function Busiest(c: Ceilings, lastly: Reply): World {
    World(n => if n == 0 then BATCH else if n <= MaxWaits(c.patience) then REFUSED else lastly, _ => false, _ => false)
  }

  // What the loop remembers when all the waiting has been done.
  function Waited(c: Ceilings): Memory {
    FRESH.(ran := true, waits := MaxWaits(c.patience))
  }

  // While it is waited for, no call is charged.
  lemma {:induction false} WaitedOut(c: Ceilings, preAnswer: bool, prior: nat, lastly: Reply, m: Memory, refused: nat)
    requires m.ran && m.waits == refused <= MaxWaits(c.patience)
    requires var reserve := if preAnswer then 0 else 1;
             prior + 1 < c.maxTurnIterations - reserve && 2 <= c.maxIterations - reserve
    ensures Loop(c, Rules(c.patience), preAnswer, prior, Busiest(c, lastly), m, 1, refused)
         == Loop(c, Rules(c.patience), preAnswer, prior, Busiest(c, lastly), m.(waits := MaxWaits(c.patience)), 1,
                 MaxWaits(c.patience))
    decreases MaxWaits(c.patience) - refused
  {
    if refused < MaxWaits(c.patience) {
      WaitsPaidFor(c.patience, refused);
      assert After(c.patience, m, Busiest(c, lastly).reply(1 + refused)) == AskAgain(m.(waits := refused + 1));
      WaitedOut(c, preAnswer, prior, lastly, m.(waits := refused + 1), refused + 1);
    }
  }

  // The first batch, and the waiting.
  lemma Begins(c: Ceilings, preAnswer: bool, prior: nat, lastly: Reply)
    requires var reserve := if preAnswer then 0 else 1;
             prior + 1 < c.maxTurnIterations - reserve && 2 <= c.maxIterations - reserve
    ensures Loop(c, Rules(c.patience), preAnswer, prior, Busiest(c, lastly), FRESH, 0, 0)
         == Loop(c, Rules(c.patience), preAnswer, prior, Busiest(c, lastly), Waited(c), 1, MaxWaits(c.patience))
  {
    assert After(c.patience, FRESH, Busiest(c, lastly).reply(0)) == GoOn(FRESH.(ran := true));
    WaitedOut(c, preAnswer, prior, lastly, FRESH.(ran := true), 0);
  }

  // From request `from` on, a model that goes on calling tools, with no other limit reached.
  ghost predicate Endless(w: World, from: nat) {
    forall n: nat :: n >= from ==> w.reply(n) == BATCH && !w.otherStop(n) && !w.late(n)
  }

  lemma {:induction false} EndlessLoop(c: Ceilings, prior: nat, w: World, m: Memory, calls: nat, refused: nat)
    requires Endless(w, calls + refused) && calls >= 1
    ensures Loop(c, Rules(c.patience), false, prior, w, m, calls, refused) ==
            Spent(Max(calls, Min(c.maxIterations, c.maxTurnIterations - prior) - 1), refused, 1, Incomplete, m.shrunk)
    decreases Max(0, c.maxTurnIterations - calls)
  {
    assert w.reply(calls + refused) == BATCH;
    if !Stops(c, false, prior, calls, calls + refused, w) {
      EndlessLoop(c, prior, w, m.(emptyInARow := 0, ran := true), calls + 1, refused);
    }
  }

  lemma FirstStep(c: Ceilings, prior: nat, w: World)
    requires Endless(w, 0) && c.maxIterations >= 1 && c.maxTurnIterations > prior
    ensures Loop(c, Rules(c.patience), false, prior, w, FRESH, 0, 0)
         == Loop(c, Rules(c.patience), false, prior, w, FRESH.(ran := true), 1, 0)
  {
    assert w.reply(0) == BATCH && !w.otherStop(0);
  }

  // A model that goes on calling tools is charged for all of it.
  lemma StandaloneSpendsAll(c: Ceilings, w: World)
    requires Endless(w, 0) && c.maxIterations >= 1 && c.maxTurnIterations >= 1
    ensures var s := Loop(c, Rules(c.patience), false, 0, w, FRESH, 0, 0);
            Billed(s) == MostBilled(c) && Requests(s) == MostBilled(c)
  {
    FirstStep(c, 0, w);
    EndlessLoop(c, 0, w, FRESH.(ran := true), 1, 0);
  }

  // And with a busy provider it makes every request it may: the bound is reached, whatever
  // the ceilings and the patience.
  lemma BusiestMakesAll(c: Ceilings)
    ensures Requests(Loop(c, Rules(c.patience), false, 0, Busiest(c, BATCH), FRESH, 0, 0)) == MostRequests(c)
  {
    var n := Min(c.maxIterations, c.maxTurnIterations);
    if n >= 3 {
      Begins(c, false, 0, BATCH);
      EndlessLoop(c, 0, Busiest(c, BATCH), Waited(c), 1, MaxWaits(c.patience));
    } else if n >= 1 {
      StopsAtOnce(c, Busiest(c, BATCH));
    } else {
      assert Stops(c, false, 0, 0, 0, Busiest(c, BATCH));
    }
  }

  // Ceilings of one and two leave room for one step and the answer.
  lemma StopsAtOnce(c: Ceilings, w: World)
    requires 1 <= Min(c.maxIterations, c.maxTurnIterations) <= 2
    requires w.reply(0) == BATCH && !w.otherStop(0) && !w.late(1)
    ensures Requests(Loop(c, Rules(c.patience), false, 0, w, FRESH, 0, 0)) == 2
  {
    assert !Stops(c, false, 0, 0, 0, w) && Stops(c, false, 0, 1, 1, w);
    assert After(c.patience, FRESH, w.reply(0)) == GoOn(FRESH.(ran := true));
  }

  // ---------------------------------------------------------------- how a loop ends

  // The empty replies up to request n, since the last that had something in it; failures of the
  // provider in between do not count.
  ghost function Empties(w: World, n: nat): nat {
    if n == 0 then 0
    else match w.reply(n - 1)
      case Empty => Empties(w, n - 1) + 1
      case Tools(_, _, _) => 0
      case Words(_, _, _) => 0
      case _ => Empties(w, n - 1)
  }

  ghost predicate HedgedBefore(w: World, n: nat) {
    n > 0 && (HedgedBefore(w, n - 1) || (w.reply(n - 1).Words? && w.reply(n - 1).hedged))
  }

  // A tool has run.
  ghost predicate RanBefore(w: World, n: nat) {
    n > 0 && (RanBefore(w, n - 1) || (w.reply(n - 1).Tools? && w.reply(n - 1).ran))
  }

  // Something stands in the answer: text of the model's, or a notice of a request made smaller.
  ghost predicate SaidBefore(w: World, n: nat) {
    n > 0 && (SaidBefore(w, n - 1) || Says(w.reply(n - 1)))
  }

  ghost predicate Says(r: Reply) {
    match r
    case Tools(said, _, _) => said != Silent
    case Broken(said, _, _) => said != Silent
    case Words(_, _, _) => true
    case TooLarge(_, _, _, _) => true
    case _ => false
  }

  // A request was refused as too large that could be made smaller.
  ghost predicate ShrunkBefore(shrunk: bool, w: World, n: nat) {
    if n == 0 then shrunk
    else ShrunkBefore(shrunk, w, n - 1)
         || (w.reply(n - 1).TooLarge? && w.reply(n - 1).said == Silent && !w.reply(n - 1).output)
  }

  // The failures of the provider up to request n: all of them were waited out, or the loop
  // would not have come so far.
  ghost function Failures(w: World, n: nat): nat {
    if n == 0 then 0 else Failures(w, n - 1) + if w.reply(n - 1).Broken? then 1 else 0
  }

  // And those of them that were refusals for the rate.
  ghost function Refusals(w: World, n: nat): nat {
    if n == 0 then 0
    else Refusals(w, n - 1) + if w.reply(n - 1).Broken? && w.reply(n - 1).cure == RateLimited then 1 else 0
  }

  datatype Verdict = OnIt | Ends(outcome: Outcome)

  // A failure that ends the loop leaves the turn incomplete if there is any work to keep.
  ghost function Stopped(w: World, k: nat, said: Text): Verdict {
    Ends(if SaidBefore(w, k) || said != Silent || RanBefore(w, k) then Incomplete else Failed)
  }

  // WHAT A REPLY COMES TO, told from the replies alone: tools that were answered, an empty reply
  // until the third in a row, and the first hedged answer let the loop go on; any other answer
  // ends it, as finished unless it was cut off. A failure that may pass is waited out once a tool
  // has run and before words are shown, as often as the patience pays for; a request too large
  // is sent once more, smaller, if that can get through.
  ghost function VerdictAt(patience: nat, shrunk: bool, w: World, k: nat): Verdict {
    match w.reply(k)
    case Tools(_, _, end) => if end.Answered? then OnIt else if end.Cancelled? then Ends(Incomplete) else Ends(Failed)
    case Empty => if Empties(w, k + 1) <= 2 then OnIt else Ends(Incomplete)
    case Words(hedged, cutOff, lost) =>
      if !hedged || HedgedBefore(w, k) then Ends(if cutOff then Incomplete else Finished)
      else if lost then Ends(Failed) else OnIt
    case TooLarge(said, output, fits, lost) =>
      if said == Silent && !output && fits && !ShrunkBefore(shrunk, w, k) then if lost then Ends(Failed) else OnIt
      else Stopped(w, k, said)
    case Broken(said, cure, room) =>
      if cure != Hopeless && RanBefore(w, k) && said != Shown && room && Failures(w, k) < MaxWaits(patience) then OnIt
      else Stopped(w, k, said)
    case Gone => Ends(Failed)
  }

  // What the replies tell, each from those before it: what it comes to, what is remembered
  // then, how many refusals were taken back, and whether a request was made smaller.
  datatype Account = Account(
    told: nat -> Verdict, recalls: (Memory, nat) -> bool, refusals: nat -> nat, shrunk: nat -> bool)

  ghost function Told(patience: nat, shrunk: bool, w: World): Account {
    Account(
      (k: nat) => VerdictAt(patience, shrunk, w, k), (m, n: nat) => Recalls(shrunk, w, m, n), (n: nat) => Refusals(w, n),
      (n: nat) => ShrunkBefore(shrunk, w, n))
  }

  // The memory is of the replies so far.
  ghost predicate Recalls(shrunk: bool, w: World, m: Memory, n: nat) {
    && m.emptyInARow == Empties(w, n) <= 2 && (m.nudged <==> HedgedBefore(w, n))
    && (m.ran <==> RanBefore(w, n)) && (m.said <==> SaidBefore(w, n))
    && (m.shrunk <==> ShrunkBefore(shrunk, w, n)) && m.waits == Failures(w, n)
  }

  ghost predicate Fits(a: Account, next: Next, k: nat) {
    match a.told(k)
    case OnIt =>
      && !next.End? && a.recalls(next.memory, k + 1)
      && a.refusals(k + 1) == a.refusals(k) + if next.AskAgain? then 1 else 0
    case Ends(outcome) => next.End? && next.outcome == outcome && next.shrunk == a.shrunk(k + 1)
  }

  // A rule that answers as told, and remembers.
  ghost predicate Heeds(after: Rule, w: World, a: Account) {
    && (forall m, k: nat {:trigger after(m, w.reply(k))} :: a.recalls(m, k) ==> Fits(a, after(m, w.reply(k)), k))
    && (forall m, k: nat {:trigger a.recalls(m, k)} :: a.recalls(m, k) ==> m.shrunk == a.shrunk(k))
  }

  lemma EmptiesGo(w: World, k: nat)
    ensures Empties(w, k + 1) == match w.reply(k)
                                 case Empty => Empties(w, k) + 1
                                 case Tools(_, _, _) => 0
                                 case Words(_, _, _) => 0
                                 case _ => Empties(w, k)
  {
  }

  lemma HistoryGoes(shrunk: bool, w: World, k: nat)
    ensures HedgedBefore(w, k + 1) <==> HedgedBefore(w, k) || (w.reply(k).Words? && w.reply(k).hedged)
    ensures RanBefore(w, k + 1) <==> RanBefore(w, k) || (w.reply(k).Tools? && w.reply(k).ran)
    ensures SaidBefore(w, k + 1) <==> SaidBefore(w, k) || Says(w.reply(k))
    ensures ShrunkBefore(shrunk, w, k + 1) <==>
            ShrunkBefore(shrunk, w, k) || (w.reply(k).TooLarge? && w.reply(k).said == Silent && !w.reply(k).output)
    ensures Failures(w, k + 1) == Failures(w, k) + if w.reply(k).Broken? then 1 else 0
    ensures Refusals(w, k + 1) ==
            Refusals(w, k) + if w.reply(k).Broken? && w.reply(k).cure == RateLimited then 1 else 0
  {
  }

  lemma RuleHeeds(patience: nat, shrunk: bool, w: World, m: Memory, k: nat)
    requires Recalls(shrunk, w, m, k)
    ensures Fits(Told(patience, shrunk, w), After(patience, m, w.reply(k)), k)
  {
    WaitsPaidFor(patience, m.waits);
    EmptiesGo(w, k);
    HistoryGoes(shrunk, w, k);
  }

  lemma RulesHeed(patience: nat, shrunk: bool, w: World)
    ensures Heeds(Rules(patience), w, Told(patience, shrunk, w))
  {
    forall m, k: nat | Recalls(shrunk, w, m, k)
      ensures Fits(Told(patience, shrunk, w), After(patience, m, w.reply(k)), k)
    {
      RuleHeeds(patience, shrunk, w, m, k);
    }
  }

  // All replies from `from` on but the last let the loop go on; the last ended it as told, or a
  // limit stopped it, and then there is an answer if there is anything to answer from. Requests
  // refused for their rate and waited out are not charged.
  ghost predicate EndedAsTold(c: Ceilings, preAnswer: bool, prior: nat, w: World, a: Account, from: nat, s: Spent) {
    var total := s.calls + s.refused;
    && total >= from && s.shrunk == a.shrunk(total)
    && (forall k: nat {:trigger a.told(k)} :: from <= k < total - 1 ==> a.told(k) == OnIt)
    && if total > from && a.told(total - 1).Ends? then
         s.outcome == a.told(total - 1).outcome && s.wrapUps == 0 && s.refused == a.refusals(total - 1)
       else
         && s.outcome == Incomplete && Stops(c, preAnswer, prior, s.calls, total, w)
         && s.wrapUps == (if s.calls > 0 && !preAnswer && !w.late(total) then 1 else 0)
         && s.refused == a.refusals(total)
  }

  lemma {:induction false} LoopEnds(c: Ceilings, after: Rule, preAnswer: bool, prior: nat, w: World, a: Account, m: Memory,
                                    calls: nat, refused: nat, s: Spent)
    requires Heeds(after, w, a) && a.recalls(m, calls + refused) && refused == a.refusals(calls + refused)
    requires s == Loop(c, after, preAnswer, prior, w, m, calls, refused)
    ensures EndedAsTold(c, preAnswer, prior, w, a, calls + refused, s)
    decreases Max(0, MAX_PROVIDER_WAITS - m.waits), Max(0, c.maxTurnIterations - calls)
  {
    var sent := calls + refused;
    if Stops(c, preAnswer, prior, calls, sent, w) {
      EndedByLimit(c, preAnswer, prior, w, a, sent, s);
    } else {
      assert Fits(a, after(m, w.reply(sent)), sent);
      match after(m, w.reply(sent))
      case GoOn(next) =>
        LoopEnds(c, after, preAnswer, prior, w, a, next, calls + 1, refused, s);
        OneReplyMore(c, preAnswer, prior, w, a, sent, s);
      case AskAgain(next) =>
        LoopEnds(c, after, preAnswer, prior, w, a, next, calls, refused + 1, s);
        OneReplyMore(c, preAnswer, prior, w, a, sent, s);
      case End(_, _) =>
        EndedByReply(c, preAnswer, prior, w, a, sent, s);
    }
  }

  lemma EndedByLimit(c: Ceilings, preAnswer: bool, prior: nat, w: World, a: Account, from: nat, s: Spent)
    requires s.calls + s.refused == from && s.outcome == Incomplete && Stops(c, preAnswer, prior, s.calls, from, w)
    requires s.wrapUps == if s.calls > 0 && !preAnswer && !w.late(from) then 1 else 0
    requires s.refused == a.refusals(from) && s.shrunk == a.shrunk(from)
    ensures EndedAsTold(c, preAnswer, prior, w, a, from, s)
  {
  }

  lemma EndedByReply(c: Ceilings, preAnswer: bool, prior: nat, w: World, a: Account, from: nat, s: Spent)
    requires s.calls + s.refused == from + 1 && s.wrapUps == 0 && a.told(from) == Ends(s.outcome)
    requires s.refused == a.refusals(from) && s.shrunk == a.shrunk(from + 1)
    ensures EndedAsTold(c, preAnswer, prior, w, a, from, s)
  {
  }

  lemma OneReplyMore(c: Ceilings, preAnswer: bool, prior: nat, w: World, a: Account, from: nat, s: Spent)
    requires EndedAsTold(c, preAnswer, prior, w, a, from + 1, s) && a.told(from) == OnIt
    ensures EndedAsTold(c, preAnswer, prior, w, a, from, s)
  {
  }

  // HOW A TURN ENDS, in every run: each reply is answered as it should be, up to the last; an
  // empty reply is asked again twice, a hedged answer nudged once, a busy provider waited for as
  // long as the patience lasts; and the turn is finished exactly if its last reply was an answer
  // that ends it and was not cut off.
  lemma TurnEndsAsTold(c: Ceilings, preAnswer: bool, prior: nat, w: World, shrunk: bool)
    ensures var s := Loop(c, Rules(c.patience), preAnswer, prior, w, FRESH.(shrunk := shrunk), 0, 0);
            var total := s.calls + s.refused;
            && EndedAsTold(c, preAnswer, prior, w, Told(c.patience, shrunk, w), 0, s)
            && (s.outcome == Finished <==> total > 0 && VerdictAt(c.patience, shrunk, w, total - 1) == Ends(Finished))
  {
    RulesHeed(c.patience, shrunk, w);
    LoopEnds(c, Rules(c.patience), preAnswer, prior, w, Told(c.patience, shrunk, w), FRESH.(shrunk := shrunk), 0, 0,
             Loop(c, Rules(c.patience), preAnswer, prior, w, FRESH.(shrunk := shrunk), 0, 0));
  }

  // ---------------------------------------------------------------- a pipeline

  // One specialist: its own ceiling if it has one, its world, whether the turn's other limits
  // leave room after it, and whether the client has gone by then.
  datatype Phase = Phase(maxIterations: int, world: World, roomLeft: bool, left: bool)

  function PhaseCeilings(c: Ceilings, p: Phase): Ceilings {
    if p.maxIterations > 0 && p.maxIterations < c.maxIterations then c.(maxIterations := p.maxIterations) else c
  }

  function PhaseSpent(c: Ceilings, after: Rule, phases: seq<Phase>, answerAt: nat, i: nat, prior: nat, shrunk: bool): Spent
    requires i < |phases|
  {
    Loop(PhaseCeilings(c, phases[i]), after, i < answerAt, prior, phases[i].world, FRESH.(shrunk := shrunk), 0, 0)
  }

  // Whether the next phase runs.
  predicate CarriesOn(c: Ceilings, phases: seq<Phase>, answerAt: nat, i: nat, total: nat, outcome: Outcome)
    requires i < |phases|
  {
    && !phases[i].left
    && (outcome == Finished ||
        (outcome == Incomplete && i < answerAt && total < c.maxTurnIterations && phases[i].roomLeft))
  }

  // The requests of phases i and after, and how the last of them to run began.
  datatype Trip = Trip(calls: nat, refused: nat, wrapUps: nat, last: nat, lastPrior: nat, lastShrunk: bool)

  function TripBilled(t: Trip): nat { t.calls + t.wrapUps }

  function TripRequests(t: Trip): nat { t.calls + t.refused + t.wrapUps }

  function Pipeline(c: Ceilings, after: Rule, phases: seq<Phase>, answerAt: nat, i: nat, prior: nat, shrunk: bool): Trip
    requires i < |phases|
    decreases |phases| - i
  {
    var s := PhaseSpent(c, after, phases, answerAt, i, prior, shrunk);
    if !CarriesOn(c, phases, answerAt, i, prior + s.calls, s.outcome) || i + 1 == |phases| then
      Trip(prior + s.calls, s.refused, s.wrapUps, i, prior, shrunk)
    else
      var t := Pipeline(c, after, phases, answerAt, i + 1, prior + s.calls, s.shrunk);
      t.(wrapUps := s.wrapUps + t.wrapUps, refused := s.refused + t.refused)
  }

  // Phase `i` made `s`: if it carries on, the requests of the other phases come on top.
  lemma PipelineUnfolds(c: Ceilings, after: Rule, phases: seq<Phase>, answerAt: nat, i: nat, prior: nat, shrunk: bool,
                        s: Spent, total: nat, t: Trip) returns (rest: Trip)
    requires i < |phases| && s == PhaseSpent(c, after, phases, answerAt, i, prior, shrunk) && total == prior + s.calls
    requires t == Pipeline(c, after, phases, answerAt, i, prior, shrunk)
    ensures i + 1 < |phases| && CarriesOn(c, phases, answerAt, i, total, s.outcome) ==>
              && rest == Pipeline(c, after, phases, answerAt, i + 1, total, s.shrunk)
              && TripBilled(t) == s.wrapUps + TripBilled(rest)
              && TripRequests(t) == s.wrapUps + s.refused + TripRequests(rest)
    ensures !(i + 1 < |phases| && CarriesOn(c, phases, answerAt, i, total, s.outcome)) ==>
              TripBilled(t) == total + s.wrapUps && TripRequests(t) == TripBilled(t) + s.refused
  {
    rest := if i + 1 < |phases| then Pipeline(c, after, phases, answerAt, i + 1, total, s.shrunk) else t;
  }

  // The state the phases of one turn share.
  class Ledger {
    var iterations: nat
    var shrunk: bool

    constructor ()
      ensures iterations == 0 && !shrunk
    {
      iterations, shrunk := 0, false;
    }
  }

  method RunPipeline(c: Ceilings, after: Rule, phases: seq<Phase>, answerAt: nat) returns (billed: nat, requests: nat)
    requires |phases| > 0
    ensures var trip := Pipeline(c, after, phases, answerAt, 0, 0, false);
            billed == TripBilled(trip) && requests == TripRequests(trip)
  {
    var ledger := new Ledger();
    ghost var trip := Pipeline(c, after, phases, answerAt, 0, 0, false);
    ghost var rest := trip;
    var refused: nat, wrapUps: nat := 0, 0;
    var i: nat := 0;
    while true
      invariant i < |phases|
      invariant rest == Pipeline(c, after, phases, answerAt, i, ledger.iterations, ledger.shrunk)
      invariant TripBilled(trip) == wrapUps + TripBilled(rest)
      invariant TripRequests(trip) == wrapUps + refused + TripRequests(rest)
      decreases |phases| - i
    {
      var s := RunAgentLoop(PhaseCeilings(c, phases[i]), after, i < answerAt, ledger.iterations, phases[i].world,
                            ledger.shrunk);
      ghost var total: nat := ledger.iterations + s.calls;
      ghost var next := PipelineUnfolds(c, after, phases, answerAt, i, ledger.iterations, ledger.shrunk, s, total, rest);
      ledger.iterations := ledger.iterations + s.calls;
      ledger.shrunk := s.shrunk;
      wrapUps, refused := wrapUps + s.wrapUps, refused + s.refused;
      if s.outcome == Failed
         || (s.outcome == Incomplete && !(i < answerAt && ledger.iterations < c.maxTurnIterations && phases[i].roomLeft))
         || i + 1 == |phases| || phases[i].left {
        return ledger.iterations + wrapUps, ledger.iterations + wrapUps + refused;
      }
      assert i + 1 < |phases| && CarriesOn(c, phases, answerAt, i, total, s.outcome);
      i := i + 1;
      assert ledger.iterations == total && ledger.shrunk == s.shrunk;
      assert next == Pipeline(c, after, phases, answerAt, i, total, s.shrunk);
      assert next == Pipeline(c, after, phases, answerAt, i, ledger.iterations, ledger.shrunk);
      rest := next;
    }
  }

  // A phase begun with one call left takes a step that does not end it, and is in time for
  // the answer: the step is the turn's last call, the answer one more.
  ghost predicate TakesOneMore(c: Ceilings, after: Rule, p: Phase, shrunk: bool) {
    && PhaseCeilings(c, p).maxIterations >= 1
    && !p.world.otherStop(0)
    && after(FRESH.(shrunk := shrunk), p.world.reply(0)).GoOn?
    && !p.world.late(1)
  }

  // With one call left, the first step is the only one.
  lemma OneCallLeft(c: Ceilings, after: Rule, p: Phase, prior: nat, shrunk: bool)
    requires Patient(after, c.patience)
    requires c.maxTurnIterations == prior + 1
    ensures var s := Loop(PhaseCeilings(c, p), after, false, prior, p.world, FRESH.(shrunk := shrunk), 0, 0);
            s.refused == 0 && (Billed(s) == 2 <==> TakesOneMore(c, after, p, shrunk)) && Billed(s) <= 2
  {
    var d, w, m := PhaseCeilings(c, p), p.world, FRESH.(shrunk := shrunk);
    LoopWithin(d, after, false, prior, w, m, 0, 0);
    if !Stops(d, false, prior, 0, 0, w) && after(m, w.reply(0)).GoOn? {
      assert Stops(d, false, prior, 1, 1, w);
    }
  }

  // What one phase makes of a turn of which `prior` calls are spent.
  ghost predicate PhaseWithin(c: Ceilings, after: Rule, p: Phase, answerAt: nat, i: nat, prior: nat, shrunk: bool,
                              s: Spent)
  {
    var oneLeft := i >= answerAt && prior == c.maxTurnIterations - 1;
    && (s.wrapUps >= 1 ==> s.wrapUps == 1 && i >= answerAt && s.outcome == Incomplete)
    && prior + s.calls <= Max(0, c.maxTurnIterations)
    && prior + Billed(s) <= Max(0, c.maxTurnIterations) + 1
    && (prior + Billed(s) == Max(0, c.maxTurnIterations) + 1 <==> oneLeft && TakesOneMore(c, after, p, shrunk))
    && s.refused <= MaxWaits(c.patience)
    && (oneLeft ==> s.refused == 0)
  }

  lemma PhaseIsWithin(c: Ceilings, after: Rule, phases: seq<Phase>, answerAt: nat, i: nat, prior: nat, shrunk: bool)
    requires i < |phases| && Patient(after, c.patience)
    requires prior <= Max(0, c.maxTurnIterations)
    ensures PhaseWithin(c, after, phases[i], answerAt, i, prior, shrunk,
                        PhaseSpent(c, after, phases, answerAt, i, prior, shrunk))
  {
    var d := PhaseCeilings(c, phases[i]);
    LoopWithin(d, after, i < answerAt, prior, phases[i].world, FRESH.(shrunk := shrunk), 0, 0);
    if i >= answerAt && prior == c.maxTurnIterations - 1 {
      OneCallLeft(c, after, phases[i], prior, shrunk);
    }
  }

  // OVER A WHOLE PIPELINE the calls charged exceed the turn's ceiling by at most one, and by
  // one exactly if the last phase to run answers the user, began with one call left and took
  // the step and the answer.
  ghost predicate TripWithin(c: Ceilings, after: Rule, phases: seq<Phase>, answerAt: nat, i: nat, t: Trip) {
    && i <= t.last < |phases|
    && t.wrapUps <= 1 && t.calls <= Max(0, c.maxTurnIterations)
    && (TripBilled(t) == Max(0, c.maxTurnIterations) + 1 <==>
          t.last >= answerAt && t.lastPrior == c.maxTurnIterations - 1
          && TakesOneMore(c, after, phases[t.last], t.lastShrunk))
  }

  lemma {:induction false} PipelineWithin(
    c: Ceilings, after: Rule, phases: seq<Phase>, answerAt: nat, i: nat, prior: nat, shrunk: bool)
    requires Patient(after, c.patience)
    requires i < |phases| && prior <= Max(0, c.maxTurnIterations)
    ensures TripWithin(c, after, phases, answerAt, i, Pipeline(c, after, phases, answerAt, i, prior, shrunk))
    decreases |phases| - i
  {
    var s := PhaseSpent(c, after, phases, answerAt, i, prior, shrunk);
    PhaseIsWithin(c, after, phases, answerAt, i, prior, shrunk);
    if CarriesOn(c, phases, answerAt, i, prior + s.calls, s.outcome) && i + 1 < |phases| {
      PipelineWithin(c, after, phases, answerAt, i + 1, prior + s.calls, s.shrunk);
      TripGoesOn(c, after, phases, answerAt, i, prior, shrunk, s,
                 Pipeline(c, after, phases, answerAt, i + 1, prior + s.calls, s.shrunk));
    } else {
      TripEnds(c, after, phases, answerAt, i, prior, shrunk, s);
    }
  }

  lemma TripEnds(c: Ceilings, after: Rule, phases: seq<Phase>, answerAt: nat, i: nat, prior: nat, shrunk: bool, s: Spent)
    requires i < |phases| && prior <= Max(0, c.maxTurnIterations)
    requires PhaseWithin(c, after, phases[i], answerAt, i, prior, shrunk, s)
    ensures TripWithin(c, after, phases, answerAt, i, Trip(prior + s.calls, s.refused, s.wrapUps, i, prior, shrunk))
  {
  }

  // A phase that is carried on from has given no answer, unless it finished.
  lemma TripGoesOn(c: Ceilings, after: Rule, phases: seq<Phase>, answerAt: nat, i: nat, prior: nat, shrunk: bool, s: Spent,
                   rest: Trip)
    requires i < |phases| && PhaseWithin(c, after, phases[i], answerAt, i, prior, shrunk, s)
    requires CarriesOn(c, phases, answerAt, i, prior + s.calls, s.outcome)
    requires TripWithin(c, after, phases, answerAt, i + 1, rest)
    ensures TripWithin(c, after, phases, answerAt, i,
                       rest.(wrapUps := s.wrapUps + rest.wrapUps, refused := s.refused + rest.refused))
  {
    assert s.wrapUps == 0;
  }

  lemma PhaseRefused(c: Ceilings, after: Rule, phases: seq<Phase>, answerAt: nat, i: nat, prior: nat, shrunk: bool)
    requires i < |phases| && Patient(after, c.patience)
    requires prior <= Max(0, c.maxTurnIterations)
    ensures var s := PhaseSpent(c, after, phases, answerAt, i, prior, shrunk);
            && s.refused <= MaxWaits(c.patience) && prior + s.calls <= Max(0, c.maxTurnIterations)
            && (i >= answerAt && prior == c.maxTurnIterations - 1 ==> s.refused == 0)
  {
    PhaseIsWithin(c, after, phases, answerAt, i, prior, shrunk);
  }

  // Every phase may besides be refused as often as its own patience pays for; but one that
  // began with one call left is not refused at all.
  lemma {:induction false} PipelineRefused(
    c: Ceilings, after: Rule, phases: seq<Phase>, answerAt: nat, i: nat, prior: nat, shrunk: bool)
    requires Patient(after, c.patience)
    requires i < |phases| && prior <= Max(0, c.maxTurnIterations)
    ensures var t := Pipeline(c, after, phases, answerAt, i, prior, shrunk);
            && i <= t.last < |phases|
            && t.refused <= InEach(t.last - i + 1, MaxWaits(c.patience))
            && (t.last >= answerAt && t.lastPrior == c.maxTurnIterations - 1 ==>
                  t.refused <= InEach(t.last - i, MaxWaits(c.patience)))
    decreases |phases| - i
  {
    var s := PhaseSpent(c, after, phases, answerAt, i, prior, shrunk);
    PhaseRefused(c, after, phases, answerAt, i, prior, shrunk);
    if CarriesOn(c, phases, answerAt, i, prior + s.calls, s.outcome) && i + 1 < |phases| {
      PipelineRefused(c, after, phases, answerAt, i + 1, prior + s.calls, s.shrunk);
    }
  }

  // `waits` for each of `n` phases.
  function InEach(n: nat, waits: nat): nat {
    if n == 0 then 0 else waits + InEach(n - 1, waits)
  }

  lemma {:induction false} InEachIs(n: nat, waits: nat)
    ensures InEach(n, waits) == n * waits
  {
    if n > 0 {
      InEachIs(n - 1, waits);
    }
  }

  // All requests of a pipeline, those refused too.
  lemma PipelineRequests(c: Ceilings, after: Rule, phases: seq<Phase>, answerAt: nat) returns (t: Trip)
    requires Patient(after, c.patience)
    requires |phases| > 0
    ensures t == Pipeline(c, after, phases, answerAt, 0, 0, false)
    ensures TripRequests(t) <= Max(0, c.maxTurnIterations) + Max(1, InEach(t.last + 1, MaxWaits(c.patience)))
  {
    PipelineWithin(c, after, phases, answerAt, 0, 0, false);
    PipelineRefused(c, after, phases, answerAt, 0, 0, false);
    t := Pipeline(c, after, phases, answerAt, 0, 0, false);
    OneOrRefused(t, Max(0, c.maxTurnIterations), MaxWaits(c.patience));
  }

  lemma OneOrRefused(t: Trip, most: nat, waits: nat)
    requires t.calls <= most && t.wrapUps <= 1
    requires t.refused <= InEach(t.last + 1, waits)
    requires TripBilled(t) == most + 1 ==> t.refused <= InEach(t.last, waits)
    ensures TripRequests(t) <= most + Max(1, InEach(t.last + 1, waits))
  {
    if waits == 0 {
      InEachIs(t.last, 0);
      InEachIs(t.last + 1, 0);
    }
  }

  // The one more is real: an answering phase with one call left, whose model still wants a
  // tool, makes that call and then the answer.
  lemma OneMoreIsReached(c: Ceilings, p: Phase, prior: nat)
    requires c.maxTurnIterations == prior + 1 && c.maxIterations >= 1 && Endless(p.world, 0)
    ensures TripBilled(Pipeline(c, Rules(c.patience), [p], 0, 0, prior, false)) == c.maxTurnIterations + 1
  {
    FirstStep(PhaseCeilings(c, p), prior, p.world);
    EndlessLoop(PhaseCeilings(c, p), prior, p.world, FRESH.(ran := true), 1, 0);
  }

  // `n` phases that each wait out a busy provider and finish, and one more that goes on until
  // the turn's calls are spent.
  function BusyPhases(c: Ceilings, n: nat): seq<Phase> {
    seq(n, _ => Phase(0, Busiest(c, Words(false, false, false)), true, false)) +
    [Phase(0, Busiest(c, BATCH), true, false)]
  }

  // So are the refused requests, in every phase: the bound on all requests is reached.
  lemma {:induction false} BusyPipelineMakesAll(c: Ceilings, n: nat, i: nat, prior: nat)
    requires i <= n && c.maxIterations >= c.maxTurnIterations >= prior + 2 * (n - i) + 3
    ensures var t := Pipeline(c, Rules(c.patience), BusyPhases(c, n), 0, i, prior, false);
            t.last == n && TripRequests(t) == c.maxTurnIterations + InEach(n - i + 1, MaxWaits(c.patience))
    decreases n - i
  {
    var phases, waits := BusyPhases(c, n), MaxWaits(c.patience);
    assert PhaseCeilings(c, phases[i]) == c;
    assert FRESH.(shrunk := false) == FRESH;
    if i < n {
      Begins(c, false, prior, Words(false, false, false));
      assert After(c.patience, Waited(c), phases[i].world.reply(1 + waits)) == End(Finished, false);
      assert PhaseSpent(c, Rules(c.patience), phases, 0, i, prior, false) == Spent(2, waits, 0, Finished, false);
      BusyPipelineMakesAll(c, n, i + 1, prior + 2);
    } else {
      Begins(c, false, prior, BATCH);
      EndlessLoop(c, prior, phases[i].world, Waited(c), 1, waits);
    }
  }
}
