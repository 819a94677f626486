/**
 A chat revision as text (daemon/chatsync.go): epoch.generation.last. Two revisions are
 compared by comparing their texts, so the text must say exactly the revision.
 */
module ChatRevisionText {
  import opened Numbers
  import opened Text
  import opened Wrappers

  const UINT64_BOUND := 0x1_0000_0000_0000_0000
  const INT64_BOUND := 0x8000_0000_0000_0000

  datatype ChatRevision = ChatRevision(epoch: string, gen: nat, last: nat)

  // What a daemon ever makes: an epoch of hexadecimal or base-36 digits, and numbers that fit.
  predicate WellFormed(r: ChatRevision) {
    r.epoch != "" && '.' !in r.epoch && r.gen < UINT64_BOUND && r.last < INT64_BOUND
  }

  // The digits of `s` as a number; nothing if there are none or something else is there.
  function Digits(s: string): Option<nat> {
    if s == "" || !IsDigit(s[|s| - 1]) then None
    else
      var d := (s[|s| - 1] - '0') as nat;
      if |s| == 1 then Some(d)
      else match Digits(s[..|s| - 1])
        case None => None
        case Some(n) => Some(10 * n + d)
  }

  // strconv.ParseUint(s, 10, 64)
  function ParseUint(s: string): Option<nat> {
    match Digits(s)
    case Some(n) => if n < UINT64_BOUND then Some(n) else None
    case None => None
  }

  // strconv.ParseInt(s, 10, 64)
  function ParseInt(s: string): Option<int> {
    var signed := s != "" && (s[0] == '+' || s[0] == '-');
    match Digits(if signed then s[1..] else s)
    case None => None
    case Some(n) =>
      var negated: int := 0 - n;
      if signed && s[0] == '-' then (if n <= INT64_BOUND then Some(negated) else None)
      else if n < INT64_BOUND then Some(n) else None
  }

  // String
  function RevisionText(r: ChatRevision): string {
    r.epoch + "." + Decimal(r.gen) + "." + Decimal(r.last)
  }

  // parseChatRevision
  function Parse(s: string): Option<ChatRevision> {
    var parts := Split(s, '.');
    if |parts| != 3 || parts[0] == "" then None
    else
      match (ParseUint(parts[1]), ParseInt(parts[2]))
      case (Some(gen), Some(last)) => if last < 0 then None else Some(ChatRevision(parts[0], gen, last))
      case _ => None
  }

  lemma {:induction false} DigitsOfDecimal(n: nat)
    ensures Digits(Decimal(n)) == Some(n)
  {
    if n >= 10 {
      DigitsOfDecimal(n / 10);
      assert Decimal(n)[..|Decimal(n)| - 1] == Decimal(n / 10);
    }
  }

  lemma SplitThree(a: string, b: string, c: string)
    requires '.' !in a && '.' !in b && '.' !in c
    ensures Split(a + "." + b + "." + c, '.') == [a, b, c]
  {
    assert a + "." + b + "." + c == a + "." + (b + "." + c);
    SplitFirst(a, b + "." + c, '.');
    SplitFirst(b, c, '.');
    SplitOne(c, '.');
  }

  // A revision comes back as it was sent.
  lemma ParseOfText(r: ChatRevision)
    requires WellFormed(r)
    ensures Parse(RevisionText(r)) == Some(r)
  {
    SplitThree(r.epoch, Decimal(r.gen), Decimal(r.last));
    DigitsOfDecimal(r.gen);
    DigitsOfDecimal(r.last);
  }

  // Comparing the texts is comparing the revisions.
  lemma SameTextSameRevision(a: ChatRevision, b: ChatRevision)
    requires WellFormed(a) && WellFormed(b)
    ensures RevisionText(a) == RevisionText(b) <==> a == b
  {
    ParseOfText(a);
    ParseOfText(b);
  }
}
