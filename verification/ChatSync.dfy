/**
 The shared-chat protocol of daemon/chatsync.go: one stored chat, many clients that each
 hold a copy and a revision saying how far the copy goes. Writers change the stored chat
 under a lock and bump a generation only afterwards; readers take no lock and read the
 generation first, the turns second.

 Every atomic action of the daemon, of a client and of the database is a step of its own,
 so that a run is any interleaving of them, restarts of the daemon included.
 */
module ChatSync {

  import opened Bytes
  import opened Wrappers

  const MAX_TURNS_PER_WORKSPACE := 1000

  datatype Turn = Turn(role: string, content: string)

  // unicode.IsSpace
  predicate IsSpace(c: char) {
    || c == ' ' || '\t' <= c <= '\r' || c == '\U{0085}' || c == '\U{00A0}' || c == '\U{1680}'
    || '\U{2000}' <= c <= '\U{200A}' || c == '\U{2028}' || c == '\U{2029}' || c == '\U{202F}' || c == '\U{205F}'
    || c == '\U{3000}'
  }

  // validTurn
  predicate ValidTurn(t: Turn) {
    (t.role == "user" || t.role == "assistant") && exists i :: 0 <= i < |t.content| && !IsSpace(t.content[i])
  }

  datatype Row = Row(id: nat, turn: Turn)

  datatype Revision = Revision(epoch: nat, gen: nat, last: nat)

  // ---------------------------------------------------------------- what is stored

  // lastTurnID
  function LastId(rows: seq<Row>): nat {
    if rows == [] then 0 else rows[|rows| - 1].id
  }

  function Kept(r: Row): seq<Turn> {
    if ValidTurn(r.turn) then [r.turn] else []
  }

  // The valid turns with an id up to `last`.
  function Upto(rows: seq<Row>, last: nat): seq<Turn> {
    if rows == [] then []
    else Upto(rows[..|rows| - 1], last) + if rows[|rows| - 1].id <= last then Kept(rows[|rows| - 1]) else []
  }

  // turnsAfter, filtered as currentChat filters it: the valid turns with an id above `after`.
  function TurnsAfter(rows: seq<Row>, after: nat): seq<Turn> {
    if rows == [] then []
    else TurnsAfter(rows[..|rows| - 1], after) + if rows[|rows| - 1].id > after then Kept(rows[|rows| - 1]) else []
  }

  // pruneWorkspace
  function Trimmed(rows: seq<Row>): seq<Row> {
    if |rows| > MAX_TURNS_PER_WORKSPACE then rows[|rows| - MAX_TURNS_PER_WORKSPACE..] else rows
  }

  // ---------------------------------------------------------------- the state

  // What a client has in flight. It has at most one request out.
  datatype Activity =
    | Idle
      // HistoryCurrent: the daemon has read the generation
    | CatchingUp(gen: nat)
      // the answer to it, on its way
    | Answered(rev: Revision, turns: seq<Turn>, append: bool)
      // a prompt, not saved yet, and the history it is answered from
    | Asking(prompt: Turn, answer: Turn, history: History)
      // its Done, on its way; `saved` is what of the exchange the chat now holds
    | Finished(prompt: Turn, answer: Turn, before: Option<Revision>, after: Option<Revision>, saved: seq<Turn>)

  // historyForTurn: not begun; the generation read; the last id read too, and the client found
  // behind; answered from what the client sent, or from the turns stored.
  datatype History = Unread | GenerationRead(gen: nat) | Behind | Sent | Stored(turns: seq<Turn>)

  // `exact` says that nothing is shown after the stored turns that was not stored.
  datatype Client = Client(shown: seq<Turn>, rev: Option<Revision>, activity: Activity, exact: bool)

  // Who holds historyMu.
  datatype Lock =
    | Free
    | Replacing(written: bool)
    | Saving(client: nat, before: Option<Revision>, saved: seq<Turn>, next: nat)

  // The stored chat, and the process's epoch and generation. `epochs` are all the epochs
  // there ever were; `dirty` says the chat was replaced and the generation not bumped yet.
  datatype Store = Store(rows: seq<Row>, epoch: nat, epochs: set<nat>, gen: nat, dirty: bool)

  datatype State = State(store: Store, lock: Lock, clients: map<nat, Client>)

  function Now(d: Store): Revision {
    Revision(d.epoch, d.gen, LastId(d.rows))
  }

  ghost predicate Current(d: Store, rev: Revision) {
    rev.epoch == d.epoch && rev.gen == d.gen
  }

  // ---------------------------------------------------------------- the steps

  datatype Step =
    | Join(c: nat)                                  // a client opens; it has seen nothing
    | ReplaceBegin                                  // ctrl+n, resume, compact take the lock
    | ReplaceWrite(rows: seq<Row>)                  // the delete and the inserts commit
    | ReplaceBump(caller: Option<nat>)              // chatReplacedLocked; the caller gets the new chat whole
    | ReplaceFails                                  // an error before or after the commit: no bump
    | ReadGeneration(c: nat)                        // currentChat's first read
    | ReadTurns(c: nat)                             // currentChat's second read
    | Adopt(c: nat)                                 // the answer arrives
    | Lose(c: nat)                                  // the answer does not arrive
    | Ask(c: nat, prompt: Turn, answer: Turn)       // a prompt is sent, and answered
    | HistoryGeneration(c: nat)                     // historyForTurn's first read, the generation
    | HistoryLast(c: nat)                           // its second, the last id; it chooses
    | HistoryStored(c: nat)                         // its third, the stored turns, if the client is behind
    | SaveBegin(c: nat, readable: bool)             // persistTurn takes the lock and reads `before`
    | SaveTurn(id: nat)                             // AppendTurn's insert
    | Prune                                         // what AppendTurn does after it, if it can
    | SaveEnd(readable: bool)                       // persistTurn reads `after`
    | TakeDone(c: nat)                              // the Done arrives
    | Restart(epoch: nat)                           // a new daemon process

  // currentChat, from the generation it read.
  function Answer(d: Store, gen: nat, since: Option<Revision>): Activity {
    var level := since.Some? && since.value.epoch == d.epoch && since.value.gen == gen;
    var after := if level then since.value.last else 0;
    var last := if LastId(d.rows) > after then LastId(d.rows) else after;
    Answered(Revision(d.epoch, gen, last), TurnsAfter(d.rows, after), level)
  }

  // adoptChat in the client.
  function Adopted(c: Client, rev: Revision, turns: seq<Turn>, append: bool): Client {
    if c.rev == Some(rev) then c.(activity := Idle)
    else Client(if append then c.shown + turns else turns, Some(rev), Idle, if append then c.exact else true)
  }

  // markChatRevision, and what the client makes of it (handleChatRev): level only if it said
  // where it stood and nobody wrote in between. A Done without a revision changes nothing.
  function Done(c: Client, a: Activity): Client
    requires a.Finished?
  {
    var behind := c.rev.Some? && c.rev != a.before;
    Client(c.shown + [a.prompt, a.answer],
           if a.after.None? then c.rev else if behind || c.rev.None? then None else a.after,
           Idle,
           c.exact && a.after.Some? && a.saved == [a.prompt, a.answer])
  }

  // What a restart leaves of a request: an answer already sent may still arrive.
  function Orphaned(c: Client): Client {
    if c.activity.CatchingUp? || c.activity.Asking? then c.(activity := Idle) else c
  }

  function Append(d: Store, row: Row): Store {
    d.(rows := d.rows + [row])
  }

  // What historyForTurn makes of the last id: the client's copy if its revision is current.
  function Chosen(d: Store, gen: nat, sent: Option<Revision>): History {
    if UsesClientCopy(d, gen, sent) then Sent else Behind
  }

  // `gen` was read before `d` was; true when the client's copy is used.
  predicate UsesClientCopy(d: Store, gen: nat, sent: Option<Revision>) {
    sent.None? || sent.value == Revision(d.epoch, gen, LastId(d.rows))
  }

  // A new daemon process: its generation starts over, in an epoch of its own.
  function Restarted(d: Store, epoch: nat): Store {
    Store(d.rows, epoch, d.epochs + {epoch}, 0, false)
  }

  function Next(s: State, step: Step): State {
    match step
    case Join(c) =>
      if c in s.clients then s else s.(clients := s.clients[c := Client([], None, Idle, true)])
    case ReplaceBegin =>
      if s.lock.Free? then s.(lock := Replacing(false)) else s
    case ReplaceWrite(rows) =>
      if s.lock == Replacing(false) && OrderedRows(rows) then
        s.(store := s.store.(rows := rows, dirty := true), lock := Replacing(true))
      else s
    case ReplaceBump(caller) =>
      if s.lock != Replacing(true) then s
      else
        var t := s.(store := s.store.(gen := s.store.gen + 1, dirty := false), lock := Free);
        if caller.Some? && caller.value in s.clients && s.clients[caller.value].activity.Idle? then
          SetActivity(t, caller.value, Answered(Now(t.store), TurnsAfter(t.store.rows, 0), false))
        else t
    case ReplaceFails =>
      if s.lock.Replacing? then s.(lock := Free) else s
    case ReadGeneration(c) =>
      if c in s.clients && s.clients[c].activity.Idle? then SetActivity(s, c, CatchingUp(s.store.gen)) else s
    case ReadTurns(c) =>
      if c in s.clients && s.clients[c].activity.CatchingUp? then
        SetActivity(s, c, Answer(s.store, s.clients[c].activity.gen, s.clients[c].rev))
      else s
    case Adopt(c) =>
      if c in s.clients && s.clients[c].activity.Answered? then
        var a := s.clients[c].activity;
        s.(clients := s.clients[c := Adopted(s.clients[c], a.rev, a.turns, a.append)])
      else s
    case Lose(c) =>
      if c in s.clients && s.clients[c].activity.Answered? then SetActivity(s, c, Idle) else s
    case Ask(c, prompt, answer) =>
      if c in s.clients && s.clients[c].activity.Idle? then SetActivity(s, c, Asking(prompt, answer, Unread)) else s
    case HistoryGeneration(c) =>
      if Reads(s, c) && HistoryOf(s, c).Unread? then SetHistory(s, c, GenerationRead(s.store.gen)) else s
    case HistoryLast(c) =>
      if Reads(s, c) && HistoryOf(s, c).GenerationRead? then
        SetHistory(s, c, Chosen(s.store, HistoryOf(s, c).gen, s.clients[c].rev))
      else s
    case HistoryStored(c) =>
      if Reads(s, c) && HistoryOf(s, c).Behind? then SetHistory(s, c, Stored(TurnsAfter(s.store.rows, 0))) else s
    case SaveBegin(c, readable) =>
      if Reads(s, c) && (HistoryOf(s, c).Sent? || HistoryOf(s, c).Stored?) && s.lock.Free? then
        s.(lock := Saving(c, if readable then Some(Now(s.store)) else None, [], 0))
      else s
    case SaveTurn(id) =>
      if SavingFor(s) && s.lock.next < 2 && id > LastId(s.store.rows) then
        var row := Row(id, Exchange(s.clients[s.lock.client].activity)[s.lock.next]);
        s.(store := Append(s.store, row),
           lock := Saving(s.lock.client, s.lock.before, s.lock.saved + Kept(row), s.lock.next + 1))
      else s
    case Prune =>
      if s.lock.Saving? then s.(store := s.store.(rows := Trimmed(s.store.rows))) else s
    case SaveEnd(readable) =>
      if SavingFor(s) then
        var a := s.clients[s.lock.client].activity;
        SetActivity(s.(lock := Free), s.lock.client,
                    Finished(a.prompt, a.answer, s.lock.before, if readable then Some(Now(s.store)) else None, s.lock.saved))
      else s
    case TakeDone(c) =>
      if c in s.clients && s.clients[c].activity.Finished? then
        s.(clients := s.clients[c := Done(s.clients[c], s.clients[c].activity)])
      else s
    case Restart(epoch) =>
      if epoch in s.store.epochs then s
      else State(Restarted(s.store, epoch), Free, map c | c in s.clients :: Orphaned(s.clients[c]))
  }

  // persistTurn is running, for a client still waiting for its Done.
  predicate SavingFor(s: State) {
    s.lock.Saving? && s.lock.client in s.clients && s.clients[s.lock.client].activity.Asking?
  }

  function Exchange(a: Activity): seq<Turn>
    requires a.Asking? || a.Finished?
  {
    [a.prompt, a.answer]
  }

  // A prompt of `c` is on its way.
  predicate Reads(s: State, c: nat) {
    c in s.clients && s.clients[c].activity.Asking?
  }

  function HistoryOf(s: State, c: nat): History
    requires Reads(s, c)
  {
    s.clients[c].activity.history
  }

  function SetHistory(s: State, c: nat, h: History): State
    requires Reads(s, c)
  {
    SetActivity(s, c, s.clients[c].activity.(history := h))
  }

  predicate OrderedRows(rows: seq<Row>) {
    && (forall i :: 0 <= i < |rows| ==> rows[i].id >= 1)
    && (forall i, j :: 0 <= i < j < |rows| ==> rows[i].id < rows[j].id)
  }

  function SetActivity(s: State, c: nat, a: Activity): State
    requires c in s.clients
  {
    s.(clients := s.clients[c := s.clients[c].(activity := a)])
  }

  function Run(s: State, steps: seq<Step>): State
    decreases |steps|
  {
    if steps == [] then s else Run(Next(s, steps[0]), steps[1..])
  }

  function Initial(rows: seq<Row>, epoch: nat): State {
    State(Store(rows, epoch, {epoch}, 0, false), Free, map[])
  }

  // ---------------------------------------------------------------- what a copy is worth

  // `a` is part of `b`, in order.
  ghost predicate Subsequence(a: seq<Turn>, b: seq<Turn>) {
    a == [] || (b != [] && (Subsequence(a, b[..|b| - 1]) ||
                            (a[|a| - 1] == b[|b| - 1] && Subsequence(a[..|a| - 1], b[..|b| - 1]))))
  }

  ghost predicate Tail(a: seq<Turn>, b: seq<Turn>) {
    |a| <= |b| && b[|b| - |a|..] == a
  }

  // THE CLAIM a revision makes: as long as it is current and no replace is waiting for its
  // bump, the copy has every valid stored turn up to `last`, in order, and if it is exact,
  // at its very end.
  ghost predicate Claim(d: Store, rev: Revision, shown: seq<Turn>, exact: bool) {
    Current(d, rev) && !d.dirty ==>
      && rev.last <= LastId(d.rows)
      && Subsequence(Upto(d.rows, rev.last), shown)
      && (exact ==> Tail(Upto(d.rows, rev.last), shown))
  }

  // A revision this daemon or an earlier one can have given out.
  ghost predicate Issued(d: Store, rev: Revision) {
    rev.epoch in d.epochs && (rev.epoch == d.epoch ==> rev.gen <= d.gen)
  }

  ghost predicate Sound(d: Store, rev: Revision, shown: seq<Turn>, exact: bool) {
    Issued(d, rev) && Claim(d, rev, shown, exact)
  }

  ghost predicate SoundClient(d: Store, c: Client) {
    && (c.rev.Some? ==> Sound(d, c.rev.value, c.shown, c.exact))
    && match c.activity
       case Idle => true
       case CatchingUp(gen) => gen <= d.gen
       case Answered(rev, turns, append) =>
         Sound(d, rev, if append then c.shown + turns else turns, if append then c.exact else true)
       case Asking(_, _, history) => history.GenerationRead? ==> history.gen <= d.gen
       case Finished(prompt, answer, before, after, saved) =>
         && Subsequence(saved, [prompt, answer])
         && (after.Some? && c.rev.Some? && c.rev == before ==> Sound(d, after.value, c.shown + saved, c.exact))
  }

  // While an exchange is being saved: what the chat has gained since `before` is exactly
  // what has been saved, so the client that asked from `before` is level with it.
  ghost predicate SoundSaving(s: State) {
    SavingFor(s) ==>
      var c := s.clients[s.lock.client];
      && s.lock.next <= 2
      && Subsequence(s.lock.saved, Exchange(c.activity)[..s.lock.next])
      && (c.rev.Some? && c.rev == s.lock.before ==> Sound(s.store, Now(s.store), c.shown + s.lock.saved, c.exact))
  }

  ghost predicate AllSound(d: Store, clients: map<nat, Client>) {
    forall c :: c in clients ==> SoundClient(d, clients[c])
  }

  ghost predicate Invariant(s: State) {
    && OrderedRows(s.store.rows)
    && s.store.epoch in s.store.epochs
    && AllSound(s.store, s.clients)
    && SoundSaving(s)
    && (s.lock.Saving? ==> SavingFor(s))
    && (s.lock == Replacing(true) ==> s.store.dirty)
  }

  // ---------------------------------------------------------------- lists

  lemma {:induction false} SubsequenceExtends(a: seq<Turn>, b: seq<Turn>, x: seq<Turn>)
    requires Subsequence(a, b)
    ensures Subsequence(a, b + x)
    decreases |x|
  {
    if x == [] {
      assert b + x == b;
    } else {
      SubsequenceExtends(a, b, x[..|x| - 1]);
      assert (b + x)[..|b + x| - 1] == b + x[..|x| - 1];
    }
  }

  lemma {:induction false} SubsequenceAppends(a: seq<Turn>, b: seq<Turn>, x: seq<Turn>)
    requires Subsequence(a, b)
    ensures Subsequence(a + x, b + x)
    decreases |x|
  {
    if x == [] {
      assert a + x == a && b + x == b;
    } else {
      SubsequenceAppends(a, b, x[..|x| - 1]);
      assert (b + x)[..|b + x| - 1] == b + x[..|x| - 1];
      assert (a + x)[..|a + x| - 1] == a + x[..|x| - 1];
    }
  }

  lemma {:induction false} SubsequenceReflexive(a: seq<Turn>)
    ensures Subsequence(a, a)
  {
    if a != [] {
      SubsequenceReflexive(a[..|a| - 1]);
    }
  }

  lemma {:induction false} SubsequencePrefix(a: seq<Turn>, b: seq<Turn>, x: seq<Turn>)
    requires Subsequence(a, b)
    ensures Subsequence(x + a, x + b)
    decreases |b|
  {
    if a == [] {
      assert x + a == x;
      SubsequenceReflexive(x);
      SubsequenceExtends(x, x, b);
    } else if Subsequence(a, b[..|b| - 1]) {
      SubsequencePrefix(a, b[..|b| - 1], x);
      assert (x + b)[..|x + b| - 1] == x + b[..|b| - 1];
    } else {
      SubsequencePrefix(a[..|a| - 1], b[..|b| - 1], x);
      assert (x + b)[..|x + b| - 1] == x + b[..|b| - 1];
      assert (x + a)[..|x + a| - 1] == x + a[..|a| - 1];
    }
  }

  lemma {:induction false} SubsequenceTransitive(a: seq<Turn>, b: seq<Turn>, c: seq<Turn>)
    requires Subsequence(a, b) && Subsequence(b, c)
    ensures Subsequence(a, c)
    decreases |c|
  {
    if a != [] {
      if Subsequence(b, c[..|c| - 1]) {
        SubsequenceTransitive(a, b, c[..|c| - 1]);
      } else if Subsequence(a, b[..|b| - 1]) {
        SubsequenceTransitive(a, b[..|b| - 1], c[..|c| - 1]);
      } else {
        SubsequenceTransitive(a[..|a| - 1], b[..|b| - 1], c[..|c| - 1]);
      }
    }
  }

  lemma {:induction false} SuffixIsSubsequence(a: seq<Turn>, k: nat)
    requires k <= |a|
    ensures Subsequence(a[k..], a)
    decreases |a|
  {
    if k < |a| {
      SuffixIsSubsequence(a[..|a| - 1], k);
      assert a[k..][..|a[k..]| - 1] == a[..|a| - 1][k..];
    }
  }

  lemma TailAppends(a: seq<Turn>, b: seq<Turn>, x: seq<Turn>)
    requires Tail(a, b)
    ensures Tail(a + x, b + x)
  {
    assert (b + x)[|b| - |a|..] == b[|b| - |a|..] + x;
  }

  lemma TailDrops(a: seq<Turn>, b: seq<Turn>, k: nat)
    requires Tail(a, b) && k <= |a|
    ensures Tail(a[k..], b)
  {
    assert b[|b| - |a[k..]|..] == b[|b| - |a|..][k..];
  }

  // ---------------------------------------------------------------- stored turns

  lemma {:induction false} UptoAll(rows: seq<Row>, last: nat)
    requires OrderedRows(rows)
    requires last >= LastId(rows)
    ensures Upto(rows, last) == Upto(rows, LastId(rows))
    ensures Upto(rows, last) == TurnsAfter(rows, 0)
  {
    if rows != [] {
      var init := rows[..|rows| - 1];
      UptoAll(init, last);
      UptoAll(init, LastId(rows));
    }
  }

  lemma UptoLast(rows: seq<Row>)
    requires OrderedRows(rows) && rows != []
    ensures var init := rows[..|rows| - 1];
            Upto(rows, LastId(rows)) == Upto(init, LastId(init)) + Kept(rows[|rows| - 1])
  {
    UptoAll(rows[..|rows| - 1], LastId(rows));
  }

  // What a reader gets above `after` is what it is missing.
  lemma {:induction false} UptoSplits(rows: seq<Row>, after: nat)
    requires OrderedRows(rows)
    requires after <= LastId(rows)
    ensures Upto(rows, LastId(rows)) == Upto(rows, after) + TurnsAfter(rows, after)
    decreases |rows|
  {
    if after == LastId(rows) {
      NothingAfter(rows, after);
      assert Upto(rows, after) + [] == Upto(rows, after);
    } else {
      UptoLast(rows);
      UptoSplitsBelow(rows, after);
    }
  }

  lemma {:induction false} UptoSplitsBelow(rows: seq<Row>, after: nat)
    requires OrderedRows(rows) && rows != []
    requires after < LastId(rows)
    ensures var init := rows[..|rows| - 1];
            Upto(init, LastId(init)) + Kept(rows[|rows| - 1]) == Upto(rows, after) + TurnsAfter(rows, after)
    decreases |rows|, 0
  {
    var init, r := rows[..|rows| - 1], rows[|rows| - 1];
    var below, above := Upto(init, after), TurnsAfter(init, after);
    assert Upto(rows, after) == below by { assert below + [] == below; }
    assert TurnsAfter(rows, after) == above + Kept(r);
    if after <= LastId(init) {
      UptoSplits(init, after);
    } else {
      UptoAll(init, after);
      NothingAfter(init, after);
      assert below + [] == below;
    }
    Reassociate(below, above, Kept(r));
  }

  lemma {:induction false} NothingAfter(rows: seq<Row>, after: nat)
    requires OrderedRows(rows) && after >= LastId(rows)
    ensures TurnsAfter(rows, after) == []
  {
    if rows != [] {
      NothingAfter(rows[..|rows| - 1], after);
    }
  }

  lemma {:induction false} UptoDrops(rows: seq<Row>, k: nat, last: nat) returns (n: nat)
    requires k <= |rows|
    ensures n <= |Upto(rows, last)| && Upto(rows[k..], last) == Upto(rows, last)[n..]
  {
    if k == |rows| {
      n := |Upto(rows, last)|;
    } else {
      var init, r := rows[..|rows| - 1], rows[|rows| - 1];
      n := UptoDrops(init, k, last);
      assert rows[k..][..|rows[k..]| - 1] == init[k..];
    }
  }

  lemma UptoIgnoresNew(rows: seq<Row>, r: Row, last: nat)
    requires last < r.id
    ensures Upto(rows + [r], last) == Upto(rows, last)
  {
    assert (rows + [r])[..|rows|] == rows;
  }

  lemma UptoTakesNew(rows: seq<Row>, r: Row)
    requires OrderedRows(rows) && r.id > LastId(rows)
    ensures Upto(rows + [r], r.id) == Upto(rows, LastId(rows)) + Kept(r)
  {
    assert (rows + [r])[..|rows|] == rows;
    UptoAll(rows, r.id);
  }

  // ---------------------------------------------------------------- what a write does to the claims

  lemma WriteKeeps(d: Store, rows: seq<Row>, rev: Revision, shown: seq<Turn>, exact: bool)
    requires Sound(d, rev, shown, exact)
    ensures Sound(d.(rows := rows, dirty := true), rev, shown, exact)
  {
  }

  lemma BumpKeeps(d: Store, rev: Revision, shown: seq<Turn>, exact: bool)
    requires Sound(d, rev, shown, exact)
    ensures Sound(d.(gen := d.gen + 1, dirty := false), rev, shown, exact)
  {
  }

  lemma RestartKeeps(d: Store, epoch: nat, rev: Revision, shown: seq<Turn>, exact: bool)
    requires Sound(d, rev, shown, exact)
    requires epoch !in d.epochs
    ensures Sound(Restarted(d, epoch), rev, shown, exact)
  {
  }

  // A shorter store claims less.
  lemma DropKeeps(d: Store, k: nat, rev: Revision, shown: seq<Turn>, exact: bool)
    requires k < |d.rows|
    requires Sound(d, rev, shown, exact)
    ensures Sound(d.(rows := d.rows[k..]), rev, shown, exact)
  {
    if Current(d, rev) && !d.dirty {
      ShorterClaim(d.rows, k, rev.last, shown, exact);
    }
  }

  lemma ShorterClaim(rows: seq<Row>, k: nat, last: nat, shown: seq<Turn>, exact: bool)
    requires k < |rows|
    requires Subsequence(Upto(rows, last), shown)
    requires exact ==> Tail(Upto(rows, last), shown)
    ensures Subsequence(Upto(rows[k..], last), shown)
    ensures exact ==> Tail(Upto(rows[k..], last), shown)
  {
    var all := Upto(rows, last);
    var n := UptoDrops(rows, k, last);
    SuffixIsSubsequence(all, n);
    SubsequenceTransitive(all[n..], all, shown);
    if exact {
      TailDrops(all, shown, n);
    }
  }

  lemma TrimKeeps(d: Store, rev: Revision, shown: seq<Turn>, exact: bool)
    requires Sound(d, rev, shown, exact)
    ensures Sound(d.(rows := Trimmed(d.rows)), rev, shown, exact)
    ensures LastId(Trimmed(d.rows)) == LastId(d.rows)
  {
    if |d.rows| > MAX_TURNS_PER_WORKSPACE {
      DropKeeps(d, |d.rows| - MAX_TURNS_PER_WORKSPACE, rev, shown, exact);
    }
  }

  lemma AppendKeeps(d: Store, row: Row, rev: Revision, shown: seq<Turn>, exact: bool)
    requires OrderedRows(d.rows) && row.id > LastId(d.rows)
    requires Sound(d, rev, shown, exact)
    ensures Sound(Append(d, row), rev, shown, exact)
  {
    if Current(d, rev) && !d.dirty {
      UptoIgnoresNew(d.rows, row, rev.last);
    }
  }

  // A copy that was level stays level by taking in what was appended.
  lemma AppendLevels(d: Store, row: Row, shown: seq<Turn>, exact: bool)
    requires OrderedRows(d.rows) && row.id > LastId(d.rows)
    requires Sound(d, Now(d), shown, exact)
    ensures Sound(Append(d, row), Now(Append(d, row)), shown + Kept(row), exact)
  {
    if !d.dirty {
      UptoTakesNew(d.rows, row);
      SubsequenceAppends(Upto(d.rows, LastId(d.rows)), shown, Kept(row));
      if exact {
        TailAppends(Upto(d.rows, LastId(d.rows)), shown, Kept(row));
      }
    }
    assert Now(Append(d, row)).last == row.id;
  }

  lemma AppendOrdered(d: Store, row: Row)
    requires OrderedRows(d.rows) && row.id > LastId(d.rows)
    ensures OrderedRows(Append(d, row).rows)
  {
  }

  // THE ORDER OF READS: the generation first, the turns second. Whatever was written in
  // between, the answer claims no more than it carries.
  lemma AnswerIsSound(d: Store, gen: nat, c: Client)
    requires OrderedRows(d.rows) && d.epoch in d.epochs
    requires gen <= d.gen
    requires c.rev.Some? ==> Sound(d, c.rev.value, c.shown, c.exact)
    ensures SoundClient(d, c.(activity := Answer(d, gen, c.rev)))
  {
    var a := Answer(d, gen, c.rev);
    if gen == d.gen && !d.dirty {
      if a.append {
        var after := c.rev.value.last;
        UptoSplits(d.rows, after);
        SubsequenceAppends(Upto(d.rows, after), c.shown, a.turns);
        if c.exact {
          TailAppends(Upto(d.rows, after), c.shown, a.turns);
        }
      } else {
        WholeChat(d.rows);
      }
    }
  }

  lemma WholeChat(rows: seq<Row>)
    requires OrderedRows(rows)
    ensures Subsequence(Upto(rows, LastId(rows)), TurnsAfter(rows, 0))
    ensures Tail(Upto(rows, LastId(rows)), TurnsAfter(rows, 0))
  {
    UptoAll(rows, LastId(rows));
    SubsequenceReflexive(TurnsAfter(rows, 0));
  }

  // A Done not marked behind leaves the client level.
  lemma DoneIsSound(d: Store, c: Client)
    requires c.activity.Finished? && SoundClient(d, c)
    ensures SoundClient(d, Done(c, c.activity))
  {
    var a := c.activity;
    var shown := c.shown + [a.prompt, a.answer];
    if c.rev.Some? && a.after.None? {
      WeakerClaim(d, c.rev.value, c.shown, c.exact, shown, [a.prompt, a.answer]);
    } else if c.rev.Some? && c.rev == a.before {
      SubsequencePrefix(a.saved, [a.prompt, a.answer], c.shown);
      SavedClaim(d, a.after.value, c.shown + a.saved, c.exact, shown, c.exact && a.saved == [a.prompt, a.answer]);
    }
  }

  lemma WeakerClaim(d: Store, rev: Revision, shown: seq<Turn>, exact: bool, shown': seq<Turn>, more: seq<Turn>)
    requires Sound(d, rev, shown, exact)
    requires shown' == shown + more
    ensures Sound(d, rev, shown', false)
  {
    if Current(d, rev) && !d.dirty {
      SubsequenceExtends(Upto(d.rows, rev.last), shown, more);
    }
  }

  lemma SavedClaim(d: Store, rev: Revision, shown: seq<Turn>, exact: bool, shown': seq<Turn>, exact': bool)
    requires Sound(d, rev, shown, exact)
    requires Subsequence(shown, shown')
    requires exact' ==> exact && shown' == shown
    ensures Sound(d, rev, shown', exact')
  {
    if Current(d, rev) && !d.dirty {
      SubsequenceTransitive(Upto(d.rows, rev.last), shown, shown');
    }
  }

  // ---------------------------------------------------------------- every step keeps the invariant

  // The store changed under everybody, and every sound claim stayed sound.
  lemma ClientsKept(d: Store, d': Store, clients: map<nat, Client>)
    requires AllSound(d, clients)
    requires forall rev, shown, exact :: Sound(d, rev, shown, exact) ==> Sound(d', rev, shown, exact)
    requires d.gen <= d'.gen
    ensures AllSound(d', clients)
  {
  }

  lemma ClientKept(d: Store, clients: map<nat, Client>, c: nat, client: Client)
    requires AllSound(d, clients)
    requires SoundClient(d, client)
    ensures AllSound(d, clients[c := client])
  {
  }

  lemma ReplaceWriteKeeps(s: State, rows: seq<Row>)
    requires Invariant(s)
    ensures Invariant(Next(s, ReplaceWrite(rows)))
  {
    if s.lock == Replacing(false) && OrderedRows(rows) {
      var d := s.store.(rows := rows, dirty := true);
      forall rev, shown, exact | Sound(s.store, rev, shown, exact)
        ensures Sound(d, rev, shown, exact)
      {
        WriteKeeps(s.store, rows, rev, shown, exact);
      }
      ClientsKept(s.store, d, s.clients);
    }
  }

  lemma ReplaceBumpKeeps(s: State, caller: Option<nat>)
    requires Invariant(s)
    ensures Invariant(Next(s, ReplaceBump(caller)))
  {
    if s.lock == Replacing(true) {
      var d := s.store.(gen := s.store.gen + 1, dirty := false);
      forall rev, shown, exact | Sound(s.store, rev, shown, exact)
        ensures Sound(d, rev, shown, exact)
      {
        BumpKeeps(s.store, rev, shown, exact);
      }
      ClientsKept(s.store, d, s.clients);
      WholeChat(d.rows);
      if caller.Some? && caller.value in s.clients && s.clients[caller.value].activity.Idle? {
        var c := s.clients[caller.value];
        ClientKept(d, s.clients, caller.value, c.(activity := Answered(Now(d), TurnsAfter(d.rows, 0), false)));
      }
    }
  }

  lemma SaveTurnKeeps(s: State, id: nat)
    requires Invariant(s)
    ensures Invariant(Next(s, SaveTurn(id)))
  {
    if SavingFor(s) && s.lock.next < 2 && id > LastId(s.store.rows) {
      var c := s.clients[s.lock.client];
      var row := Row(id, Exchange(c.activity)[s.lock.next]);
      var d := Append(s.store, row);
      forall rev, shown, exact | Sound(s.store, rev, shown, exact)
        ensures Sound(d, rev, shown, exact)
      {
        AppendKeeps(s.store, row, rev, shown, exact);
      }
      ClientsKept(s.store, d, s.clients);
      AppendOrdered(s.store, row);
      SavedIsPart(s.lock.saved, Exchange(c.activity), s.lock.next);
      if c.rev.Some? && c.rev == s.lock.before {
        AppendLevels(s.store, row, c.shown + s.lock.saved, c.exact);
        Reassociate(c.shown, s.lock.saved, Kept(row));
      }
    }
  }

  lemma TrimmedRows(rows: seq<Row>)
    requires OrderedRows(rows)
    ensures OrderedRows(Trimmed(rows)) && LastId(Trimmed(rows)) == LastId(rows)
  {
  }

  lemma PruneKeeps(s: State)
    requires Invariant(s)
    ensures Invariant(Next(s, Prune))
  {
    if s.lock.Saving? {
      StorePruned(s, s.store.(rows := Trimmed(s.store.rows)));
    }
  }

  lemma StorePruned(s: State, d: Store)
    requires Invariant(s) && d == s.store.(rows := d.rows) && d.rows == Trimmed(s.store.rows)
    ensures Invariant(s.(store := d))
  {
    TrimmedRows(s.store.rows);
    forall rev, shown, exact | Sound(s.store, rev, shown, exact)
      ensures Sound(d, rev, shown, exact)
    {
      TrimKeeps(s.store, rev, shown, exact);
    }
    ClientsKept(s.store, d, s.clients);
    assert Now(d) == Now(s.store);
  }

  // Reading a history disturbs nothing.
  lemma HistoryKeeps(s: State, c: nat, h: History)
    requires Invariant(s)
    requires Reads(s, c) && (h.GenerationRead? ==> h.gen <= s.store.gen)
    ensures Invariant(SetHistory(s, c, h))
  {
    var client := s.clients[c].(activity := s.clients[c].activity.(history := h));
    assert SoundClient(s.store, s.clients[c]);
    ClientKept(s.store, s.clients, c, client);
  }

  lemma SavedIsPart(saved: seq<Turn>, exchange: seq<Turn>, next: nat)
    requires next < |exchange|
    requires Subsequence(saved, exchange[..next])
    ensures Subsequence(saved + Kept(Row(0, exchange[next])), exchange[..next + 1])
  {
    TakeSnoc(exchange, next);
    if ValidTurn(exchange[next]) {
      SubsequenceAppends(saved, exchange[..next], [exchange[next]]);
    } else {
      assert saved + [] == saved;
      SubsequenceExtends(saved, exchange[..next], [exchange[next]]);
    }
  }

  lemma SaveBeginKeeps(s: State, c: nat, readable: bool)
    requires Invariant(s)
    ensures Invariant(Next(s, SaveBegin(c, readable)))
  {
    if c in s.clients && s.clients[c].activity.Asking? && s.lock.Free? {
      assert s.clients[c].shown + [] == s.clients[c].shown;
    }
  }

  lemma SaveEndKeeps(s: State, readable: bool)
    requires Invariant(s)
    ensures Invariant(Next(s, SaveEnd(readable)))
  {
    if SavingFor(s) {
      var c := s.clients[s.lock.client];
      var exchange := Exchange(c.activity);
      assert exchange[..s.lock.next] + exchange[s.lock.next..] == exchange;
      SubsequenceExtends(s.lock.saved, exchange[..s.lock.next], exchange[s.lock.next..]);
      ClientKept(s.store, s.clients, s.lock.client,
                 c.(activity := Finished(c.activity.prompt, c.activity.answer, s.lock.before,
                                         if readable then Some(Now(s.store)) else None, s.lock.saved)));
    }
  }

  lemma RestartKeepsAll(s: State, epoch: nat)
    requires Invariant(s)
    ensures Invariant(Next(s, Restart(epoch)))
  {
    if epoch !in s.store.epochs {
      var d := Restarted(s.store, epoch);
      forall rev, shown, exact | Sound(s.store, rev, shown, exact)
        ensures Sound(d, rev, shown, exact)
      {
        RestartKeeps(s.store, epoch, rev, shown, exact);
      }
    }
  }

  lemma ReadTurnsKeeps(s: State, c: nat)
    requires Invariant(s)
    ensures Invariant(Next(s, ReadTurns(c)))
  {
    if c in s.clients && s.clients[c].activity.CatchingUp? {
      var client := s.clients[c];
      assert SoundClient(s.store, client);
      AnswerIsSound(s.store, client.activity.gen, client);
      ClientKept(s.store, s.clients, c, client.(activity := Answer(s.store, client.activity.gen, client.rev)));
      OtherClientMoves(s, c, client.(activity := Answer(s.store, client.activity.gen, client.rev)));
    }
  }

  // A client that is not being saved for may change without disturbing the save.
  lemma OtherClientMoves(s: State, c: nat, client: Client)
    requires SoundSaving(s)
    requires c !in s.clients || !s.clients[c].activity.Asking?
    requires !client.activity.Asking? || !s.lock.Saving? || s.lock.client != c
    ensures SoundSaving(s.(clients := s.clients[c := client]))
  {
  }

  lemma AdoptKeeps(s: State, c: nat)
    requires Invariant(s)
    ensures Invariant(Next(s, Adopt(c)))
  {
    if c in s.clients && s.clients[c].activity.Answered? {
      var a := s.clients[c].activity;
      assert SoundClient(s.store, s.clients[c]);
      var client := Adopted(s.clients[c], a.rev, a.turns, a.append);
      ClientKept(s.store, s.clients, c, client);
      OtherClientMoves(s, c, client);
    }
  }

  lemma TakeDoneKeeps(s: State, c: nat)
    requires Invariant(s)
    ensures Invariant(Next(s, TakeDone(c)))
  {
    if c in s.clients && s.clients[c].activity.Finished? {
      assert SoundClient(s.store, s.clients[c]);
      DoneIsSound(s.store, s.clients[c]);
      var client := Done(s.clients[c], s.clients[c].activity);
      ClientKept(s.store, s.clients, c, client);
      OtherClientMoves(s, c, client);
    }
  }

  lemma ActivityKeeps(s: State, c: nat, a: Activity)
    requires Invariant(s)
    requires c in s.clients && !s.clients[c].activity.Asking?
    requires SoundClient(s.store, s.clients[c].(activity := a))
    requires a.Asking? ==> !s.lock.Saving? || s.lock.client != c
    ensures Invariant(SetActivity(s, c, a))
  {
    ClientKept(s.store, s.clients, c, s.clients[c].(activity := a));
    OtherClientMoves(s, c, s.clients[c].(activity := a));
  }

  lemma StepKeeps(s: State, step: Step)
    requires Invariant(s)
    ensures Invariant(Next(s, step))
  {
    match step
    case Join(c) =>
      if c !in s.clients {
        ClientKept(s.store, s.clients, c, Client([], None, Idle, true));
        OtherClientMoves(s, c, Client([], None, Idle, true));
      }
    case ReplaceBegin =>
    case ReplaceWrite(rows) => ReplaceWriteKeeps(s, rows);
    case ReplaceBump(caller) => ReplaceBumpKeeps(s, caller);
    case ReplaceFails =>
    case ReadGeneration(c) =>
      if c in s.clients && s.clients[c].activity.Idle? {
        ActivityKeeps(s, c, CatchingUp(s.store.gen));
      }
    case ReadTurns(c) => ReadTurnsKeeps(s, c);
    case Adopt(c) => AdoptKeeps(s, c);
    case Lose(c) =>
      if c in s.clients && s.clients[c].activity.Answered? {
        ActivityKeeps(s, c, Idle);
      }
    case Ask(c, prompt, answer) =>
      if c in s.clients && s.clients[c].activity.Idle? {
        ActivityKeeps(s, c, Asking(prompt, answer, Unread));
      }
    case HistoryGeneration(c) =>
      if Reads(s, c) && HistoryOf(s, c).Unread? {
        HistoryKeeps(s, c, GenerationRead(s.store.gen));
      }
    case HistoryLast(c) =>
      if Reads(s, c) && HistoryOf(s, c).GenerationRead? {
        HistoryKeeps(s, c, Chosen(s.store, HistoryOf(s, c).gen, s.clients[c].rev));
      }
    case HistoryStored(c) =>
      if Reads(s, c) && HistoryOf(s, c).Behind? {
        HistoryKeeps(s, c, Stored(TurnsAfter(s.store.rows, 0)));
      }
    case SaveBegin(c, readable) => SaveBeginKeeps(s, c, readable);
    case SaveTurn(id) => SaveTurnKeeps(s, id);
    case Prune => PruneKeeps(s);
    case SaveEnd(readable) => SaveEndKeeps(s, readable);
    case TakeDone(c) => TakeDoneKeeps(s, c);
    case Restart(epoch) => RestartKeepsAll(s, epoch);
  }

  lemma {:induction false} RunKeeps(s: State, steps: seq<Step>)
    requires Invariant(s)
    ensures Invariant(Run(s, steps))
    decreases |steps|
  {
    if steps != [] {
      StepKeeps(s, steps[0]);
      RunKeeps(Next(s, steps[0]), steps[1..]);
    }
  }

  // ---------------------------------------------------------------- the theorem

  // A REVISION NEVER OVERSTATES. After any run of the system, a client whose revision is
  // this daemon's, of this generation, with no replace left between its write and its bump,
  // shows every valid stored turn up to `last`, in order, and as the end of what it shows
  // unless an exchange of its own was never stored whole.
  lemma RevisionsNeverOverstate(rows: seq<Row>, epoch: nat, steps: seq<Step>, c: nat)
    requires OrderedRows(rows)
    requires var s := Run(Initial(rows, epoch), steps);
             c in s.clients && s.clients[c].rev.Some? && Current(s.store, s.clients[c].rev.value) && !s.store.dirty
    ensures var s := Run(Initial(rows, epoch), steps);
            var client := s.clients[c];
            && client.rev.value.last <= LastId(s.store.rows)
            && Subsequence(Upto(s.store.rows, client.rev.value.last), client.shown)
            && (client.exact ==> Tail(Upto(s.store.rows, client.rev.value.last), client.shown))
  {
    RunKeeps(Initial(rows, epoch), steps);
    var s := Run(Initial(rows, epoch), steps);
    assert SoundClient(s.store, s.clients[c]);
  }

  // ---------------------------------------------------------------- catching up

  // A client that shows this chat of this generation and asks for the rest.
  ghost predicate Continues(d: Store, gen: nat, rev: Option<Revision>) {
    rev.Some? && rev.value.epoch == d.epoch && rev.value.gen == gen
  }

  // Its request goes through, from the second read on, whatever was written since the first.
  function Finish(s: State, c: nat): State {
    Next(Next(s, ReadTurns(c)), Adopt(c))
  }

  // WHAT A CLIENT IS BROUGHT: of a chat it shows already exactly the valid turns stored above
  // its last, after what it shows; of any other exactly all valid turns stored. That is what
  // is stored at the second read, under the generation of the first.
  lemma CatchUpBrings(s: State, c: nat)
    requires Invariant(s) && c in s.clients && s.clients[c].activity.CatchingUp?
    ensures var d, was, gen, t := s.store, s.clients[c], s.clients[c].activity.gen, Finish(s, c);
            && t.store == d && c in t.clients && t.clients[c].activity == Idle
            && (Continues(d, gen, was.rev) ==>
                  && t.clients[c].shown == was.shown + TurnsAfter(d.rows, was.rev.value.last)
                  && t.clients[c].rev.Some? && t.clients[c].rev.value.epoch == d.epoch && t.clients[c].rev.value.gen == gen
                  && t.clients[c].rev.value.last >= LastId(d.rows) && t.clients[c].rev.value.last >= was.rev.value.last
                  && t.clients[c].rev.value.last in {LastId(d.rows), was.rev.value.last})
            && (!Continues(d, gen, was.rev) ==>
                  t.clients[c].shown == TurnsAfter(d.rows, 0) && t.clients[c].rev == Some(Revision(d.epoch, gen, LastId(d.rows))))
  {
    var d, was, gen := s.store, s.clients[c], s.clients[c].activity.gen;
    if Continues(d, gen, was.rev) {
      if was.rev.value.last >= LastId(d.rows) {
        NothingAfter(d.rows, was.rev.value.last);
        assert was.shown + [] == was.shown;
      }
    }
  }

  // All of a chat, and what is left of it above an id, together are all of it: no turn is sent
  // twice and none is missed.
  lemma NoneTwiceNoneMissed(rows: seq<Row>, after: nat)
    requires OrderedRows(rows) && after <= LastId(rows)
    ensures Upto(rows, after) + TurnsAfter(rows, after) == TurnsAfter(rows, 0)
  {
    UptoSplits(rows, after);
    UptoAll(rows, LastId(rows));
  }

  // A whole request, with nothing in between.
  function CaughtUp(s: State, c: nat): State {
    Finish(Next(s, ReadGeneration(c)), c)
  }

  // EVERY CLIENT IS CAUGHT UP by a request that nothing disturbs, in every reachable state: it
  // names the chat as it stands, and shows what is stored: the new turns after the old ones if
  // it was of this generation, else the chat alone. Only a replace that was never bumped can
  // leave it ahead of the chat: it is exactly then that it does not name the chat as it is.
  lemma EveryClientIsCaughtUp(rows: seq<Row>, epoch: nat, steps: seq<Step>, c: nat)
    requires OrderedRows(rows)
    requires var s := Run(Initial(rows, epoch), steps); c in s.clients && s.clients[c].activity.Idle?
    ensures var s := Run(Initial(rows, epoch), steps);
            var d, was, t := s.store, s.clients[c], CaughtUp(s, c);
            && t.store == d && c in t.clients && t.clients[c].activity == Idle
            && (t.clients[c].rev == Some(Now(d)) <==>
                  !(was.rev.Some? && Current(d, was.rev.value) && was.rev.value.last > LastId(d.rows)))
            && (!d.dirty ==> t.clients[c].rev == Some(Now(d)))
            && t.clients[c].shown == if was.rev.Some? && Current(d, was.rev.value)
                                     then was.shown + TurnsAfter(d.rows, was.rev.value.last) else TurnsAfter(d.rows, 0)
  {
    RunKeeps(Initial(rows, epoch), steps);
    var s := Run(Initial(rows, epoch), steps);
    StepKeeps(s, ReadGeneration(c));
    assert SoundClient(s.store, s.clients[c]);
    CatchUpBrings(Next(s, ReadGeneration(c)), c);
  }

  // A WRITE BETWEEN THE TWO READS. What was appended is brought at once (`CatchUpBrings` is
  // about what is stored at the second read). A replace is not noticed: the new chat, or what
  // of it stands above the client's last, comes under the old generation; so the next request,
  // undisturbed, brings the new chat whole and names it as it is.
  lemma ReplacedBetweenReads(s: State, mid: seq<Step>, c: nat)
    requires Invariant(s) && c in s.clients && s.clients[c].activity.Idle?
    requires var u := Run(Next(s, ReadGeneration(c)), mid);
             && c in u.clients && u.clients[c] == Next(s, ReadGeneration(c)).clients[c]
             && u.store.epoch == s.store.epoch && u.store.gen > s.store.gen
    ensures var d, was := Run(Next(s, ReadGeneration(c)), mid).store, s.clients[c];
            var t := Finish(Run(Next(s, ReadGeneration(c)), mid), c);
            && t.clients[c].shown == (if Continues(s.store, s.store.gen, was.rev)
                                      then was.shown + TurnsAfter(d.rows, was.rev.value.last) else TurnsAfter(d.rows, 0))
            && t.clients[c].rev.Some? && !Current(d, t.clients[c].rev.value)
            && CaughtUp(t, c).clients[c].shown == TurnsAfter(d.rows, 0)
            && CaughtUp(t, c).clients[c].rev == Some(Now(d))
  {
    StepKeeps(s, ReadGeneration(c));
    RunKeeps(Next(s, ReadGeneration(c)), mid);
    var u := Run(Next(s, ReadGeneration(c)), mid);
    CatchUpBrings(u, c);
    StepKeeps(u, ReadTurns(c));
    StepKeeps(Next(u, ReadTurns(c)), Adopt(c));
    var t := Finish(u, c);
    StepKeeps(t, ReadGeneration(c));
    CatchUpBrings(Next(t, ReadGeneration(c)), c);
  }

  // THE HISTORY A TURN IS ANSWERED FROM, if nothing comes between the reads: the client's own copy
  // exactly if it names no revision or the chat as it stands, else all that is stored.
  lemma HistoryIsChosen(s: State, c: nat, q: Turn, a: Turn)
    requires c in s.clients && s.clients[c].activity.Idle?
    ensures var t := Next(Next(Next(s, Ask(c, q, a)), HistoryGeneration(c)), HistoryLast(c));
            && Reads(t, c) && (HistoryOf(t, c) == Sent <==> s.clients[c].rev.None? || s.clients[c].rev == Some(Now(s.store)))
            && (HistoryOf(t, c) != Sent ==>
                  var u := Next(t, HistoryStored(c));
                  Reads(u, c) && HistoryOf(u, c) == Stored(TurnsAfter(s.store.rows, 0)))
  {
    var s2 := Next(Next(s, Ask(c, q, a)), HistoryGeneration(c));
    assert s2.store == s.store && s2.clients[c] == s.clients[c].(activity := Asking(q, a, GenerationRead(s.store.gen)));
  }

  // Whoever replaced the chat is given it whole, and names it as it is.
  lemma CallerIsGivenTheChat(s: State, c: nat)
    requires Invariant(s) && s.lock == Replacing(true) && c in s.clients && s.clients[c].activity.Idle?
    ensures var t := Next(Next(s, ReplaceBump(Some(c))), Adopt(c));
            && t.store == s.store.(gen := s.store.gen + 1, dirty := false) && t.lock.Free?
            && c in t.clients && t.clients[c].rev == Some(Now(t.store)) && t.clients[c].shown == TurnsAfter(s.store.rows, 0)
  {
    assert SoundClient(s.store, s.clients[c]);
  }

  // An exchange of the client's own, with nothing in between.
  function Exchanged(s: State, c: nat, q: Turn, a: Turn, first: nat, second: nat): State {
    var asked := Next(Next(Next(Next(s, Ask(c, q, a)), HistoryGeneration(c)), HistoryLast(c)), SaveBegin(c, true));
    Next(Next(Next(Next(asked, SaveTurn(first)), SaveTurn(second)), SaveEnd(true)), TakeDone(c))
  }

  // A LEVEL CLIENT STAYS LEVEL by an exchange of its own: it is answered from its own copy, both
  // turns are stored, and it shows them and names the chat as it is.
  lemma ExchangeStaysLevel(s: State, c: nat, q: Turn, a: Turn, first: nat, second: nat)
    requires c in s.clients && s.clients[c].activity.Idle? && s.lock.Free?
    requires s.clients[c].rev == Some(Now(s.store)) && LastId(s.store.rows) < first < second
    ensures var t := Exchanged(s, c, q, a, first, second);
            && t.store.rows == s.store.rows + [Row(first, q)] + [Row(second, a)] && t.lock.Free?
            && c in t.clients && t.clients[c].activity == Idle && t.clients[c].rev == Some(Now(t.store))
            && t.clients[c].shown == s.clients[c].shown + [q, a]
  {
    var was, d := s.clients[c], s.store;
    var s4 := Next(Next(Next(Next(s, Ask(c, q, a)), HistoryGeneration(c)), HistoryLast(c)), SaveBegin(c, true));
    assert s4.clients[c] == was.(activity := Asking(q, a, Sent)) && s4.store == d;
    assert s4.lock == Saving(c, Some(Now(d)), [], 0);
    SavesBoth(s4, c, q, a, first, second);
  }

  lemma SavesBoth(s: State, c: nat, q: Turn, a: Turn, first: nat, second: nat)
    requires c in s.clients && s.clients[c].activity.Asking? && Exchange(s.clients[c].activity) == [q, a]
    requires s.lock == Saving(c, Some(Now(s.store)), [], 0) && s.clients[c].rev == Some(Now(s.store))
    requires LastId(s.store.rows) < first < second
    ensures var t := Next(Next(Next(Next(s, SaveTurn(first)), SaveTurn(second)), SaveEnd(true)), TakeDone(c));
            && t.store.rows == s.store.rows + [Row(first, q)] + [Row(second, a)] && t.lock.Free?
            && c in t.clients && t.clients[c].activity == Idle && t.clients[c].rev == Some(Now(t.store))
            && t.clients[c].shown == s.clients[c].shown + [q, a]
  {
    var s1 := Next(s, SaveTurn(first));
    assert s1.clients == s.clients && s1.lock.Saving? && s1.lock.client == c && s1.lock.next == 1;
    var s2 := Next(s1, SaveTurn(second));
    assert s2.clients == s.clients && s2.lock.Saving? && s2.lock.before == s.clients[c].rev;
    var s3 := Next(s2, SaveEnd(true));
    assert s3.clients[c].activity.Finished?;
  }

  // ---------------------------------------------------------------- where the claim ends

  // A replace that commits and then fails, so that nobody bumps the generation, does mislead:
  // a level client is told it is level, and stays level by catching up, with a chat that is
  // gone. This is why the theorem asks for no replace left waiting for its bump.
  lemma UnbumpedReplaceMisleads(a: Turn, b: Turn)
    requires ValidTurn(a) && ValidTurn(b) && a != b
    ensures var s := Run(Run(Run(Initial([Row(1, a)], 0), CatchUp(true)),
                             [ReplaceBegin, ReplaceWrite([Row(1, b)]), ReplaceFails]),
                         CatchUp(false));
            && 7 in s.clients && s.clients[7].shown == [a]
            && s.clients[7].rev == Some(Now(s.store))
            && !Subsequence(Upto(s.store.rows, LastId(s.store.rows)), s.clients[7].shown)
  {
    OneTurn(a);
    OneTurn(b);
    LevelWith(a);
    ReplacedUnderneath(a, b);
    StaysMisled(a, b);
    assert !Subsequence([b], [a]) by {
      assert [a][..0] == [];
    }
  }

  // Client 7 opens, if it has not yet, and catches up.
  function CatchUp(opens: bool): seq<Step>
    decreases opens
  {
    if opens then [Join(7)] + CatchUp(false) else [ReadGeneration(7), ReadTurns(7), Adopt(7)]
  }

  ghost function OneClient(stored: Turn, shown: Turn, dirty: bool): State {
    State(Store([Row(1, stored)], 0, {0}, 0, dirty), Free,
          map[7 := Client([shown], Some(Revision(0, 0, 1)), Idle, true)])
  }

  lemma OneTurn(a: Turn)
    requires ValidTurn(a)
    ensures TurnsAfter([Row(1, a)], 0) == [a] && TurnsAfter([Row(1, a)], 1) == []
    ensures Upto([Row(1, a)], 1) == [a]
  {
    assert [Row(1, a)][..0] == [];
  }

  lemma RunCons(s: State, step: Step, steps: seq<Step>)
    ensures Run(s, [step] + steps) == Run(Next(s, step), steps)
  {
    assert ([step] + steps)[1..] == steps;
  }

  lemma RunThree(s: State, x: Step, y: Step, z: Step)
    ensures Run(s, [x, y, z]) == Next(Next(Next(s, x), y), z)
  {
    RunCons(s, x, [y, z]);
    RunCons(Next(s, x), y, [z]);
    RunCons(Next(Next(s, x), y), z, []);
    assert [x] + [y, z] == [x, y, z] && [y] + [z] == [y, z] && [z] + [] == [z];
  }

  lemma LevelWith(a: Turn)
    requires ValidTurn(a)
    ensures Run(Initial([Row(1, a)], 0), CatchUp(true)) == OneClient(a, a, false)
  {
    OneTurn(a);
    var s := Next(Initial([Row(1, a)], 0), Join(7));
    RunCons(Initial([Row(1, a)], 0), Join(7), CatchUp(false));
    RunThree(s, ReadGeneration(7), ReadTurns(7), Adopt(7));
    var s1 := Next(s, ReadGeneration(7));
    var s2 := Next(s1, ReadTurns(7));
    assert s2.clients[7] == Client([], None, Answered(Revision(0, 0, 1), [a], false), true);
    var s3 := Next(s2, Adopt(7));
    assert s3.clients == map[7 := Client([a], Some(Revision(0, 0, 1)), Idle, true)];
  }

  lemma ReplacedUnderneath(a: Turn, b: Turn)
    requires ValidTurn(a) && ValidTurn(b)
    ensures Run(OneClient(a, a, false), [ReplaceBegin, ReplaceWrite([Row(1, b)]), ReplaceFails]) == OneClient(b, a, true)
  {
    RunThree(OneClient(a, a, false), ReplaceBegin, ReplaceWrite([Row(1, b)]), ReplaceFails);
  }

  lemma StaysMisled(a: Turn, b: Turn)
    requires ValidTurn(a) && ValidTurn(b)
    ensures Run(OneClient(b, a, true), CatchUp(false)) == OneClient(b, a, true)
  {
    OneTurn(b);
    var s := OneClient(b, a, true);
    RunThree(s, ReadGeneration(7), ReadTurns(7), Adopt(7));
    var s1 := Next(s, ReadGeneration(7));
    var s2 := Next(s1, ReadTurns(7));
    assert s2.clients[7].activity == Answered(Revision(0, 0, 1), [], true);
    var s3 := Next(s2, Adopt(7));
    assert s3.clients == s.clients;
  }

  // Were the turns read first and the generation second, a replace between the two would
  // put the new generation on the old turns: the answer overstates.
  lemma ReversedReadsOverstate(a: Turn, b: Turn)
    requires ValidTurn(a) && ValidTurn(b) && a != b
    ensures var before := Store([Row(1, a)], 0, {0}, 0, false);
            var after := Store([Row(1, b)], 0, {0}, 1, false);
            var late := Answer(before.(gen := after.gen), after.gen, None);
            && late.turns == [a] && Current(after, late.rev)
            && !Claim(after, late.rev, late.turns, true)
  {
    OneTurn(a);
    OneTurn(b);
    assert !Subsequence([b], [a]) by {
      assert [a][..0] == [];
    }
  }

  // ---------------------------------------------------------------- the exact conditions

  // What the claims allow a client with this revision to show.
  ghost predicate Shows(d: Store, rev: Revision, last: nat) {
    forall shown, exact {:trigger Sound(d, rev, shown, exact)} ::
      Sound(d, rev, shown, exact) ==> Subsequence(Upto(d.rows, last), shown)
  }

  // A REVISION CAN BE TRUSTED exactly if it is current and no replace is waiting for its bump,
  // or nothing is stored up to `last`.
  lemma TrustedIff(d: Store, rev: Revision)
    requires Issued(d, rev) && rev.last <= LastId(d.rows)
    ensures Shows(d, rev, rev.last) <==> (Current(d, rev) && !d.dirty) || Upto(d.rows, rev.last) == []
  {
    if !(Current(d, rev) && !d.dirty) {
      assert Sound(d, rev, [], true);
    }
  }

  // A turn is answered from a client's own copy with every valid stored turn in it exactly if
  // the generation did not move between the two reads and no replace is waiting for its bump,
  // or nothing valid is stored.
  lemma CopyUsedIsCompleteIff(d: Store, gen: nat, sent: Revision)
    requires Issued(d, sent) && UsesClientCopy(d, gen, Some(sent))
    ensures Shows(d, sent, LastId(d.rows)) <==> (gen == d.gen && !d.dirty) || Upto(d.rows, LastId(d.rows)) == []
  {
    TrustedIff(d, sent);
  }

  // So in every run: a prompt answered from the client's own copy is answered with all that
  // is stored when the copy is chosen, if the generation read is still the daemon's and no
  // replace is waiting for its bump.
  lemma HistoryIsComplete(rows: seq<Row>, epoch: nat, steps: seq<Step>, c: nat)
    requires OrderedRows(rows)
    requires var s := Run(Initial(rows, epoch), steps);
             Reads(s, c) && HistoryOf(s, c).GenerationRead? && s.clients[c].rev.Some?
             && HistoryOf(s, c).gen == s.store.gen && !s.store.dirty
    ensures var s := Run(Initial(rows, epoch), steps);
            var t := Next(s, HistoryLast(c));
            Reads(t, c) && HistoryOf(t, c).Sent? ==> Subsequence(Upto(s.store.rows, LastId(s.store.rows)), s.clients[c].shown)
  {
    RunKeeps(Initial(rows, epoch), steps);
    var s := Run(Initial(rows, epoch), steps);
    assert SoundClient(s.store, s.clients[c]);
    if UsesClientCopy(s.store, s.store.gen, s.clients[c].rev) {
      CopyUsedIsCompleteIff(s.store, s.store.gen, s.clients[c].rev.value);
    }
  }

  // AND A RUN REACHES THE OTHER CASE, the replace bumped or not: a level client asks, the
  // generation is read, the chat is replaced by one that ends on the same id, and the turn is
  // answered from the copy of the chat that is gone.
  lemma CopyUsedCanBeStale(a: Turn, b: Turn, q: Turn, bumped: bool)
    requires ValidTurn(a) && ValidTurn(b) && a != b
    ensures var s := Run(Run(Initial([Row(1, a)], 0), CatchUp(true)), StaleSteps(b, q, bumped));
            && Reads(s, 7) && HistoryOf(s, 7) == Sent
            && s.store.dirty == !bumped && s.store.gen == (if bumped then 1 else 0)
            && !Subsequence(Upto(s.store.rows, LastId(s.store.rows)), s.clients[7].shown)
  {
    LevelWith(a);
    OneTurn(b);
    AskedUnderneath(a, b, q);
    ChosenTooLate(a, b, q, bumped);
    RunSix(OneClient(a, a, false), Ask(7, q, q), HistoryGeneration(7), ReplaceBegin, ReplaceWrite([Row(1, b)]),
           if bumped then ReplaceBump(None) else ReplaceFails, HistoryLast(7));
    assert !Subsequence([b], [a]) by {
      assert [a][..0] == [];
    }
  }

  // Client 7 shows a, asks q, and is being answered as `history` says; the chat is now `b`.
  ghost function Asked(b: Turn, a: Turn, q: Turn, gen: nat, dirty: bool, lock: Lock, history: History): State {
    State(Store([Row(1, b)], 0, {0}, gen, dirty), lock,
          map[7 := Client([a], Some(Revision(0, 0, 1)), Asking(q, q, history), true)])
  }

  lemma AskedUnderneath(a: Turn, b: Turn, q: Turn)
    ensures Next(Next(Next(Next(OneClient(a, a, false), Ask(7, q, q)), HistoryGeneration(7)), ReplaceBegin),
                 ReplaceWrite([Row(1, b)]))
         == Asked(b, a, q, 0, true, Replacing(true), GenerationRead(0))
  {
    var s := Next(OneClient(a, a, false), Ask(7, q, q));
    assert s == Asked(a, a, q, 0, false, Free, Unread);
    assert Next(s, HistoryGeneration(7)) == Asked(a, a, q, 0, false, Free, GenerationRead(0));
  }

  lemma ChosenTooLate(a: Turn, b: Turn, q: Turn, bumped: bool)
    ensures Next(Next(Asked(b, a, q, 0, true, Replacing(true), GenerationRead(0)),
                      if bumped then ReplaceBump(None) else ReplaceFails), HistoryLast(7))
         == if bumped then Asked(b, a, q, 1, false, Free, Sent) else Asked(b, a, q, 0, true, Free, Sent)
  {
    var s := Asked(b, a, q, if bumped then 1 else 0, !bumped, Free, GenerationRead(0));
    assert Next(s, HistoryLast(7)).clients == Asked(b, a, q, 0, true, Free, Sent).clients;
  }

  function StaleSteps(b: Turn, q: Turn, bumped: bool): seq<Step> {
    [Ask(7, q, q), HistoryGeneration(7), ReplaceBegin, ReplaceWrite([Row(1, b)]),
     if bumped then ReplaceBump(None) else ReplaceFails, HistoryLast(7)]
  }

  lemma RunSix(s: State, u: Step, v: Step, w: Step, x: Step, y: Step, z: Step)
    ensures Run(s, [u, v, w, x, y, z]) == Next(Next(Next(Next(Next(Next(s, u), v), w), x), y), z)
  {
    var t := Next(Next(Next(s, u), v), w);
    RunThree(t, x, y, z);
    RunCons(Next(Next(s, u), v), w, [x, y, z]);
    RunCons(Next(s, u), v, [w, x, y, z]);
    RunCons(s, u, [v, w, x, y, z]);
    assert [w] + [x, y, z] == [w, x, y, z] && [v] + [w, x, y, z] == [v, w, x, y, z];
    assert [u] + [v, w, x, y, z] == [u, v, w, x, y, z];
  }
}
