/**
 Bringing a saved copy of a chat up to date (daemon/chatarchive.go, extendSaved): the current
 chat is laid over the longest end of the copy that it begins with.
 */
module SavedChats {
  import opened Wrappers

  datatype Turn = Turn(role: string, text: string, at: string)

  // Turns are compared by who spoke and what was said, not when.
  predicate SameTurn(a: Turn, b: Turn) {
    a.role == b.role && a.text == b.text
  }

  predicate SameTurns(a: seq<Turn>, b: seq<Turn>) {
    |a| == |b| && forall i :: 0 <= i < |a| ==> SameTurn(a[i], b[i])
  }

  // The end of the copy from `from` on is what the current chat begins with.
  predicate Overlaps(saved: seq<Turn>, current: seq<Turn>, from: nat) {
    from < |saved| && |saved| - from <= |current| && SameTurns(saved[from..], current[..|saved| - from])
  }

  function FirstOverlap(saved: seq<Turn>, current: seq<Turn>, from: nat): (r: Option<nat>)
    ensures r.Some? ==> r.value < |saved|
    decreases |saved| - from
  {
    if from >= |saved| then None
    else if Overlaps(saved, current, from) then Some(from)
    else FirstOverlap(saved, current, from + 1)
  }

  // extendSaved, as a function.
  function Extended(saved: seq<Turn>, current: seq<Turn>): Option<seq<Turn>> {
    match FirstOverlap(saved, current, 0)
    case None => None
    case Some(from) => Some(saved[..from] + current)
  }

  method ExtendSaved(saved: seq<Turn>, current: seq<Turn>) returns (out: Option<seq<Turn>>)
    ensures out == Extended(saved, current)
  {
    for from := 0 to |saved|
      invariant FirstOverlap(saved, current, from) == FirstOverlap(saved, current, 0)
    {
      var end := saved[from..];
      if |end| <= |current| {
        var same := true;
        var i: nat := 0;
        while i < |end| && same
          invariant i <= |end|
          invariant same ==> SameTurns(end[..i], current[..i])
          invariant !same ==> !Overlaps(saved, current, from)
          decreases |end| - i, same
        {
          if end[i].role != current[i].role || end[i].text != current[i].text {
            same := false;
            assert !SameTurn(end[i], current[..|end|][i]);
          } else {
            i := i + 1;
          }
        }
        if same {
          assert end[..|end|] == end;
          return Some(saved[..from] + current);
        }
      }
    }
    return None;
  }

  lemma {:induction false} FirstIsFirst(saved: seq<Turn>, current: seq<Turn>, from: nat)
    ensures var first := FirstOverlap(saved, current, from);
            && (first.Some? ==> from <= first.value && Overlaps(saved, current, first.value))
            && (first.None? ==> forall k: nat :: from <= k ==> !Overlaps(saved, current, k))
            && (first.Some? ==> forall k: nat :: from <= k < first.value ==> !Overlaps(saved, current, k))
    decreases |saved| - from
  {
    if from < |saved| {
      FirstIsFirst(saved, current, from + 1);
    }
  }

  // IT FAILS EXACTLY IF the current chat begins with no end of the copy.
  lemma ExtendsIff(saved: seq<Turn>, current: seq<Turn>)
    ensures Extended(saved, current).Some? <==> exists from: nat :: Overlaps(saved, current, from)
  {
    FirstIsFirst(saved, current, 0);
  }

  // `all` begins with the copy and ends with the current chat.
  ghost predicate HoldsBoth(all: seq<Turn>, saved: seq<Turn>, current: seq<Turn>) {
    && |saved| <= |all| && SameTurns(all[..|saved|], saved)
    && |current| <= |all| && SameTurns(all[|all| - |current|..], current)
  }

  // NO TURN IS LOST, and the current chat stands at the end as it is.
  lemma ExtensionHoldsBoth(saved: seq<Turn>, current: seq<Turn>)
    requires Extended(saved, current).Some?
    ensures var all := Extended(saved, current).value;
            HoldsBoth(all, saved, current) && all[|all| - |current|..] == current
  {
    FirstIsFirst(saved, current, 0);
    var from := FirstOverlap(saved, current, 0).value;
    var all := saved[..from] + current;
    forall i | 0 <= i < |saved|
      ensures SameTurn(all[..|saved|][i], saved[i])
    {
      if i >= from {
        assert SameTurn(saved[from..][i - from], current[..|saved| - from][i - from]);
      }
    }
  }

  // Two chats that fit in less than their lengths overlap.
  lemma ShorterOverlaps(all: seq<Turn>, saved: seq<Turn>, current: seq<Turn>)
    requires HoldsBoth(all, saved, current) && |all| < |saved| + |current|
    ensures Overlaps(saved, current, |all| - |current|)
  {
    var from := |all| - |current|;
    var n := |saved| - from;
    forall i | 0 <= i < n
      ensures SameTurn(saved[from..][i], current[..n][i])
    {
      assert SameTurn(all[..|saved|][from + i], saved[from + i]);
      assert SameTurn(all[from..][i], current[i]);
    }
  }

  // It is as short as any chat that holds both.
  lemma ExtensionIsShortest(saved: seq<Turn>, current: seq<Turn>, other: seq<Turn>)
    requires Extended(saved, current).Some? && HoldsBoth(other, saved, current)
    ensures |Extended(saved, current).value| <= |other|
  {
    FirstIsFirst(saved, current, 0);
    if |other| < |saved| + |current| {
      ShorterOverlaps(other, saved, current);
    }
  }

  // Saving the same chat again changes nothing.
  lemma ExtendingAgain(saved: seq<Turn>, current: seq<Turn>)
    requires Extended(saved, current).Some?
    ensures Extended(Extended(saved, current).value, current) == Extended(saved, current)
  {
    FirstIsFirst(saved, current, 0);
    var from := FirstOverlap(saved, current, 0).value;
    var all := saved[..from] + current;
    assert all[from..] == current == current[..|all| - from];
    assert Overlaps(all, current, from);
    FirstIsFirst(all, current, 0);
    assert FirstOverlap(all, current, 0) == Some(from);
    assert all[..from] + current == all;
  }
}
