/**
 Who said yes to a tool call (daemon/agentloop.go, resolveExecutable): the configuration, an
 answer given earlier in the turn, or the user, asked about this very call.
 */
module Consent {
  import opened Wrappers

  datatype Policy = Ask | Allow | Other

  // What running the call would start, if anything.
  datatype Launch = Launch(needed: bool, repeatable: bool, key: string)

  datatype Tool = Tool(name: string, executesCode: bool, reachesNetwork: bool, destructive: bool)

  // One call and what is found out about it before anyone is asked. A digest is taken to name
  // its arguments; `egress`, `outside` and `specGrantable` are found by code not modelled here.
  datatype Call = Call(
    tool: Tool, arguments: string, policy: Policy, withheld: bool, launch: Launch,
    outside: Option<string>, outsideRefused: bool, egress: bool, wouldRunInPlace: bool, refusedByTool: bool,
    specGrantable: bool)

  datatype Answer = Approve | ApproveForTurn | ApproveForSpec | Decline | CancelTurn | NoAnswer

  // What an answer for the turn is remembered under.
  datatype Key =
    | ForTool(tool: string)
    | ForCall(tool: string, arguments: string)
    | ForPath(tool: string, path: string)
    | ForLaunch(tool: string, launch: string)

  datatype Source = DeniedByConfig | RefusedByTool | ConfigAllow | TurnGrant | SpecGrant | Asked

  datatype Decision = Decision(source: Source, run: bool, cancel: bool, launchKey: Option<string>, outsideRead: Option<string>)

  predicate Sensitive(t: Tool) {
    t.executesCode || t.reachesNetwork || t.destructive
  }

  // grantKey
  function GrantKey(t: Tool, arguments: string): Key {
    if !Sensitive(t) then ForTool(t.name) else ForCall(t.name, arguments)
  }

  predicate InPlace(c: Call) {
    c.wouldRunInPlace && c.tool.executesCode
  }

  predicate Approved(a: Answer) {
    a.Approve? || a.ApproveForTurn? || a.ApproveForSpec?
  }

  datatype Grants = Grants(turn: set<Key>, spec: set<(string, string)>)

  function Refusal(source: Source): Decision {
    Decision(source, false, false, None, None)
  }

  // The decision, if it is made without asking.
  function Unasked(g: Grants, c: Call): Option<Decision> {
    if c.withheld || c.policy.Other? then Some(Refusal(DeniedByConfig))
    else if c.outside.Some? && c.outsideRefused then Some(Refusal(DeniedByConfig))
    else if c.outside.Some? && ForPath(c.tool.name, c.outside.value) in g.turn then
      Some(Decision(TurnGrant, true, false, None, c.outside))
    else if c.refusedByTool then Some(Refusal(RefusedByTool))
    else if c.policy.Allow? && !c.launch.needed && c.outside.None? && !c.egress && !InPlace(c) then
      Some(Decision(ConfigAllow, true, false, None, None))
    else if !c.launch.needed && c.outside.None? && GrantKey(c.tool, c.arguments) in g.turn then
      Some(Decision(TurnGrant, true, false, None, None))
    else if c.launch.needed && c.launch.repeatable && c.outside.None? && ForLaunch(c.tool.name, c.launch.key) in g.turn then
      Some(Decision(TurnGrant, true, false, Some(c.launch.key), None))
    else if c.specGrantable && !c.launch.needed && c.outside.None? && !InPlace(c) && (c.tool.name, c.arguments) in g.spec then
      Some(Decision(SpecGrant, true, false, None, None))
    else None
  }

  // What an approval for the turn covers from then on.
  function NewKeys(c: Call): set<Key> {
    if c.outside.Some? then {ForPath(c.tool.name, c.outside.value)}
    else
      {GrantKey(c.tool, c.arguments)} +
      if c.launch.needed && c.launch.repeatable then {ForLaunch(c.tool.name, c.launch.key)} else {}
  }

  // A spec grant is never offered for what it could never cover.
  predicate OffersSpecGrant(c: Call) {
    c.specGrantable && !c.launch.needed && c.outside.None? && !InPlace(c)
  }

  function AskedDecision(c: Call, a: Answer): Decision {
    Decision(Asked, Approved(a), a.CancelTurn?,
             if Approved(a) && c.launch.needed then Some(c.launch.key) else None,
             if Approved(a) then c.outside else None)
  }

  function AfterAnswer(g: Grants, c: Call, a: Answer): Grants {
    match a
    case ApproveForTurn => g.(turn := g.turn + NewKeys(c))
    case ApproveForSpec => if OffersSpecGrant(c) then g.(spec := g.spec + {(c.tool.name, c.arguments)}) else g
    case _ => g
  }

  function Decide(g: Grants, c: Call, a: Answer): Decision {
    match Unasked(g, c)
    case Some(d) => d
    case None => AskedDecision(c, a)
  }

  function Then(g: Grants, c: Call, a: Answer): Grants {
    if Unasked(g, c).Some? then g else AfterAnswer(g, c, a)
  }

  // ---------------------------------------------------------------- resolveExecutable

  // What every phase of one turn shares.
  class Ledger {
    var grants: set<Key>
    var specGrants: set<(string, string)>

    constructor (specGrants: set<(string, string)>)
      ensures grants == {} && this.specGrants == specGrants
    {
      grants := {};
      this.specGrants := specGrants;
    }

    ghost function Now(): Grants
      reads this
    {
      Grants(grants, specGrants)
    }
  }

  class Turn {
    const ledger: Ledger

    constructor (ledger: Ledger)
      ensures this.ledger == ledger
    {
      this.ledger := ledger;
    }

    method Grant(key: Key)
      modifies ledger
      ensures ledger.grants == old(ledger.grants) + {key} && ledger.specGrants == old(ledger.specGrants)
    {
      ledger.grants := ledger.grants + {key};
    }

    method ResolveExecutable(c: Call, answer: Answer) returns (d: Decision)
      modifies ledger
      ensures d == Decide(old(ledger.Now()), c, answer)
      ensures ledger.Now() == Then(old(ledger.Now()), c, answer)
    {
      if c.withheld || c.policy.Other? {
        return Refusal(DeniedByConfig);
      }
      if c.outside.Some? {
        if c.outsideRefused {
          return Refusal(DeniedByConfig);
        }
        if ForPath(c.tool.name, c.outside.value) in ledger.grants {
          return Decision(TurnGrant, true, false, None, c.outside);
        }
      }
      if c.refusedByTool {
        return Refusal(RefusedByTool);
      }
      var inPlace := c.wouldRunInPlace && c.tool.executesCode;
      if c.policy.Allow? && !c.launch.needed && c.outside.None? && !c.egress && !inPlace {
        return Decision(ConfigAllow, true, false, None, None);
      }
      if !c.launch.needed && c.outside.None? && GrantKey(c.tool, c.arguments) in ledger.grants {
        return Decision(TurnGrant, true, false, None, None);
      }
      if c.launch.needed && c.launch.repeatable && c.outside.None? && ForLaunch(c.tool.name, c.launch.key) in ledger.grants {
        return Decision(TurnGrant, true, false, Some(c.launch.key), None);
      }
      if c.specGrantable && !c.launch.needed && c.outside.None? && !inPlace && (c.tool.name, c.arguments) in ledger.specGrants {
        return Decision(SpecGrant, true, false, None, None);
      }
      d := AnswerTo(c, answer);
    }

    method AnswerTo(c: Call, answer: Answer) returns (d: Decision)
      modifies ledger
      ensures d == AskedDecision(c, answer)
      ensures ledger.Now() == AfterAnswer(old(ledger.Now()), c, answer)
    {
      d := Decision(Asked, false, false, None, None);
      if answer.CancelTurn? {
        d := d.(cancel := true);
      } else if Approved(answer) {
        d := d.(run := true, outsideRead := c.outside);
        if c.launch.needed {
          d := d.(launchKey := Some(c.launch.key));
        }
        if c.outside.Some? {
          if answer.ApproveForTurn? {
            Grant(ForPath(c.tool.name, c.outside.value));
          }
          return;
        }
        if answer.ApproveForTurn? {
          Grant(GrantKey(c.tool, c.arguments));
          if c.launch.needed && c.launch.repeatable {
            Grant(ForLaunch(c.tool.name, c.launch.key));
          }
        }
        if answer.ApproveForSpec? && c.specGrantable && !c.launch.needed && !InPlace(c) {
          ledger.specGrants := ledger.specGrants + {(c.tool.name, c.arguments)};
        }
      }
    }
  }

  // ---------------------------------------------------------------- a whole turn

  // One call, and what the user would answer if asked.
  datatype Event = Event(call: Call, answer: Answer)

  // What is granted after a run of calls, over all the phases of the turn.
  function Granted(start: set<(string, string)>, es: seq<Event>): Grants {
    if es == [] then Grants({}, start)
    else Then(Granted(start, es[..|es| - 1]), es[|es| - 1].call, es[|es| - 1].answer)
  }

  function DecisionAt(start: set<(string, string)>, es: seq<Event>, i: nat): Decision
    requires i < |es|
  {
    Decide(Granted(start, es[..i]), es[i].call, es[i].answer)
  }

  // Call j was put to the user, who gave that answer.
  predicate WasAsked(start: set<(string, string)>, es: seq<Event>, j: nat, a: Answer)
    requires j < |es|
  {
    Unasked(Granted(start, es[..j]), es[j].call).None? && es[j].answer == a
  }

  // "Yes, for this turn" to call `a` is an answer about call `b`.
  predicate Covers(a: Call, b: Call) {
    a.tool.name == b.tool.name &&
    if b.outside.Some? then a.outside == b.outside
    else
      a.outside.None? &&
      if b.launch.needed then
        a.launch.needed && a.launch.repeatable && b.launch.repeatable && a.launch.key == b.launch.key
      else
        Sensitive(a.tool) == Sensitive(b.tool) && (Sensitive(b.tool) ==> a.arguments == b.arguments)
  }

  // Key k was given by an answer to call j.
  ghost predicate GivenBy(start: set<(string, string)>, es: seq<Event>, k: Key, j: nat) {
    j < |es| && WasAsked(start, es, j, ApproveForTurn) && k in NewKeys(es[j].call)
  }

  lemma GivenStays(start: set<(string, string)>, es: seq<Event>, e: Event, k: Key, j: nat)
    requires GivenBy(start, es, k, j)
    ensures GivenBy(start, es + [e], k, j)
  {
    assert (es + [e])[..j] == es[..j];
  }

  lemma {:induction false} EveryKeyWasGiven(start: set<(string, string)>, es: seq<Event>, k: Key)
    requires k in Granted(start, es).turn
    ensures exists j: nat :: GivenBy(start, es, k, j)
  {
    var n := |es| - 1;
    var init, e := es[..n], es[n];
    assert es == init + [e];
    if k in Granted(start, init).turn {
      EveryKeyWasGiven(start, init, k);
      var j: nat :| GivenBy(start, init, k, j);
      GivenStays(start, init, e, k, j);
    } else {
      assert GivenBy(start, es, k, n);
    }
  }

  lemma PrefixGiven(start: set<(string, string)>, es: seq<Event>, i: nat, k: Key, j: nat)
    requires i <= |es| && GivenBy(start, es[..i], k, j)
    ensures GivenBy(start, es, k, j) && j < i
  {
    assert es[..i][..j] == es[..j];
  }

  // NO GRANT WITHOUT A YES: a call run on the turn's grants, in whichever phase, follows a
  // "yes, for this turn" to a call it covers.
  lemma TurnGrantWasGiven(start: set<(string, string)>, es: seq<Event>, i: nat)
    requires i < |es| && DecisionAt(start, es, i).source == TurnGrant
    ensures exists j: nat :: j < i && WasAsked(start, es, j, ApproveForTurn) && Covers(es[j].call, es[i].call)
  {
    var c, g := es[i].call, Granted(start, es[..i]);
    var k :=
      if c.outside.Some? then ForPath(c.tool.name, c.outside.value)
      else if c.launch.needed then ForLaunch(c.tool.name, c.launch.key)
      else GrantKey(c.tool, c.arguments);
    assert k in g.turn;
    EveryKeyWasGiven(start, es[..i], k);
    var j: nat :| GivenBy(start, es[..i], k, j);
    PrefixGiven(start, es, i, k, j);
    assert es[..i][j] == es[j];
  }

  // NO LAUNCH WITHOUT A YES: a launch is let through only by an approval of this very call, or
  // by an earlier one, for the turn, of the same launch of the same tool, if it is repeatable.
  lemma LaunchWasApproved(start: set<(string, string)>, es: seq<Event>, i: nat)
    requires i < |es| && DecisionAt(start, es, i).launchKey.Some?
    ensures DecisionAt(start, es, i).launchKey == Some(es[i].call.launch.key) && es[i].call.launch.needed
    ensures (WasAsked(start, es, i, es[i].answer) && Approved(es[i].answer)) ||
            (es[i].call.launch.repeatable &&
             exists j: nat :: j < i && WasAsked(start, es, j, ApproveForTurn) && Covers(es[j].call, es[i].call))
  {
    if DecisionAt(start, es, i).source == TurnGrant {
      TurnGrantWasGiven(start, es, i);
    }
  }

  // What configuration alone may run: nothing that starts a program, reads outside the
  // workspace, sends chosen text to an unvetted place, or runs in the real project.
  predicate ConfigSuffices(c: Call) {
    && c.policy == Allow && !c.withheld && !c.refusedByTool
    && !c.launch.needed && c.outside.None? && !c.egress && !InPlace(c)
  }

  // EVERY CALL OF A TURN THAT RUNS HAS A REASON: configuration suffices for such a call, the
  // user was asked about this very one and said yes, an earlier yes for the turn covers it, or
  // a spec grant that could be offered for it does. And one configuration suffices for runs,
  // whatever was answered before.
  lemma RunHasReason(start: set<(string, string)>, es: seq<Event>, i: nat)
    requires i < |es|
    ensures ConfigSuffices(es[i].call) <==> DecisionAt(start, es, i).source == ConfigAllow
    ensures ConfigSuffices(es[i].call) ==> DecisionAt(start, es, i).run
    ensures DecisionAt(start, es, i).run ==>
      || ConfigSuffices(es[i].call)
      || (WasAsked(start, es, i, es[i].answer) && Approved(es[i].answer))
      || (exists j: nat :: j < i && WasAsked(start, es, j, ApproveForTurn) && Covers(es[j].call, es[i].call))
      || ((es[i].call.tool.name, es[i].call.arguments) in Granted(start, es[..i]).spec && OffersSpecGrant(es[i].call))
  {
    if DecisionAt(start, es, i).source == TurnGrant {
      TurnGrantWasGiven(start, es, i);
    }
  }

  // AN ANSWER IS OBEYED: a call put to the user runs exactly if the answer approves it, carrying
  // the outside path it was about and the launch it needs, and nothing else; only "cancel" ends
  // the turn.
  lemma AnswerIsObeyed(start: set<(string, string)>, es: seq<Event>, i: nat)
    requires i < |es| && WasAsked(start, es, i, es[i].answer)
    ensures var c, a, d := es[i].call, es[i].answer, DecisionAt(start, es, i);
            && (d.run <==> a in {Approve, ApproveForTurn, ApproveForSpec}) && (d.cancel <==> a == CancelTurn)
            && d.outsideRead == (if d.run then c.outside else None)
            && d.launchKey == (if d.run && c.launch.needed then Some(c.launch.key) else None)
  {
  }

  lemma {:induction false} KeyStays(start: set<(string, string)>, es: seq<Event>, j: nat, i: nat)
    requires j < i <= |es| && WasAsked(start, es, j, ApproveForTurn)
    ensures NewKeys(es[j].call) <= Granted(start, es[..i]).turn
    decreases i
  {
    assert es[..i][..i - 1] == es[..i - 1] && es[..i][i - 1] == es[i - 1];
    if j < i - 1 {
      KeyStays(start, es, j, i - 1);
    }
  }

  // What stands in the way of a call whatever was granted.
  predicate Barred(c: Call) {
    || c.withheld || c.policy.Other? || (c.outside.Some? && c.outsideRefused) || (c.outside.None? && c.refusedByTool)
  }

  // AND A YES FOR THE TURN IS REMEMBERED, in whichever phase: a later call it covers runs
  // without asking, unless it is barred.
  lemma YesIsRemembered(start: set<(string, string)>, es: seq<Event>, j: nat, i: nat)
    requires j < i < |es| && WasAsked(start, es, j, ApproveForTurn)
    requires Covers(es[j].call, es[i].call) && !Barred(es[i].call)
    ensures DecisionAt(start, es, i).run && DecisionAt(start, es, i).source in {ConfigAllow, TurnGrant}
  {
    KeyStays(start, es, j, i);
  }

  lemma {:induction false} SpecKeyStays(start: set<(string, string)>, es: seq<Event>, k: (string, string), j: nat, i: nat)
    requires j <= i <= |es| && k in Granted(start, es[..j]).spec
    ensures k in Granted(start, es[..i]).spec
    decreases i
  {
    if j < i {
      assert es[..i][..i - 1] == es[..i - 1] && es[..i][i - 1] == es[i - 1];
      SpecKeyStays(start, es, k, j, i - 1);
    }
  }

  // So is a yes for the spec: later calls of the same tool with the same arguments run, unless
  // they are barred or no spec grant could be offered for them.
  lemma SpecYesIsRemembered(start: set<(string, string)>, es: seq<Event>, j: nat, i: nat)
    requires j < i < |es| && WasAsked(start, es, j, ApproveForSpec) && OffersSpecGrant(es[j].call)
    requires es[i].call.tool.name == es[j].call.tool.name && es[i].call.arguments == es[j].call.arguments
    requires OffersSpecGrant(es[i].call) && !Barred(es[i].call)
    ensures DecisionAt(start, es, i).run && DecisionAt(start, es, i).source != Asked
  {
    assert es[..j + 1][..j] == es[..j] && es[..j + 1][j] == es[j];
    SpecKeyStays(start, es, (es[j].call.tool.name, es[j].call.arguments), j + 1, i);
  }

  // And a spec grant that was not there at the start was given by an answer about the same
  // tool with the same arguments.
  lemma {:induction false} SpecGrantWasGiven(start: set<(string, string)>, es: seq<Event>, k: (string, string))
    requires k in Granted(start, es).spec
    ensures k in start || exists j: nat ::
              j < |es| && WasAsked(start, es, j, ApproveForSpec) && OffersSpecGrant(es[j].call)
              && (es[j].call.tool.name, es[j].call.arguments) == k
  {
    if es != [] {
      var n := |es| - 1;
      var init, e := es[..n], es[n];
      assert es == init + [e];
      if k in Granted(start, init).spec {
        SpecGrantWasGiven(start, init, k);
        if k !in start {
          var j: nat :| j < |init| && WasAsked(start, init, j, ApproveForSpec) && OffersSpecGrant(init[j].call)
                        && (init[j].call.tool.name, init[j].call.arguments) == k;
          assert es[..j] == init[..j] && es[j] == init[j];
          assert WasAsked(start, es, j, ApproveForSpec);
        }
      } else {
        assert WasAsked(start, es, n, ApproveForSpec);
      }
    }
  }
}
