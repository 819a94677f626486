/**
 The filter object of daemon/citemarks.go. `Feed` takes text in pieces of any size, which
 may end inside a character, and `Flush` ends the stream; what they return, put together,
 is a function of the text alone.
 */
module CiteMarkStream {
  import opened Bytes
  import opened Utf8
  import opened CiteMarks

  datatype Message = Message(role: string, content: Str)

  predicate UserWroteCJK(isCJK: int -> bool, m: Message) {
    m.role == "user" && exists i :: 0 <= i < |Chars(m.content)| && isCJK(Chars(m.content)[i].r)
  }

  class CiteMarkFilter {
    const isCJK: int -> bool

    var out: Str          // released by the call in progress
    var held: Str         // a possible mark, from its opening bracket
    var holding: bool
    var heldRunes: nat
    var dagger: bool
    var spaces: Str       // spaces and tabs not released yet
    var removed: bool     // a mark went, and nothing has been released since
    var lineStart: Str
    var lineHasText: bool
    var fence: int
    var inEdit: bool
    var inCode: bool
    var partial: Str      // the first bytes of a character the last piece ended inside
    var cjk: bool
    var marks: nat

    ghost const cjkAtStart: bool
    ghost var emitted: Str        // released by the calls before this one
    ghost var fed: Str            // every byte of every piece
    ghost var taken: seq<Char>    // every character read

    ghost function TextState(): Core
      reads this
    {
      Core(isCJK, Judge, emitted + out, spaces, removed, lineStart, lineHasText, fence, inEdit, inCode, cjk, marks)
    }

    ghost function State(): Filter
      reads this
    {
      Filter(TextState(), holding, held, heldRunes, dagger)
    }

    ghost predicate HasTaken()
      reads this
    {
      State() == TakeAll(Start(isCJK, cjkAtStart), taken)
    }

    // Whatever follows, the characters taken and those of `rest` and what follows are the
    // characters of the whole text.
    ghost predicate Reading(rest: Str)
      reads this
    {
      forall q {:trigger fed + q} :: Chars(fed + q) == taken + Chars(rest + q)
    }

    ghost predicate Valid()
      reads this
    {
      HasTaken() && Reading(partial) && !FullRune(partial)
    }

    // newCiteMarkFilter: only what the user wrote decides.
    constructor (isCJK: int -> bool, messages: seq<Message>)
      ensures Valid()
      ensures this.isCJK == isCJK
      ensures cjkAtStart <==> exists k :: 0 <= k < |messages| && UserWroteCJK(isCJK, messages[k])
      ensures fed == [] && emitted == [] && out == []
    {
      var found := false;
      var k := 0;
      while k < |messages| && !found
        invariant 0 <= k <= |messages|
        invariant found <==> exists j :: 0 <= j < k && UserWroteCJK(isCJK, messages[j])
      {
        if UserWroteCJK(isCJK, messages[k]) {
          found := true;
        }
        k := k + 1;
      }
      this.isCJK := isCJK;
      out, held, holding, heldRunes, dagger := [], [], false, 0, false;
      spaces, removed, lineStart, lineHasText := [], false, [], false;
      fence, inEdit, inCode, partial, cjk, marks := 0, false, false, [], found, 0;
      cjkAtStart, emitted, fed, taken := found, [], [], [];
    }

    method ReadLineStart() returns (acted: bool)
      modifies `inEdit, `fence, `inCode
      ensures (TextState(), acted) == CiteMarks.ReadLineStart(old(TextState()))
    {
      var line := lineStart;
      if inEdit {
        if line == EDIT_REPLACE_LINE {
          inEdit := false;
          return true;
        }
        return false;
      }
      var mark := TrimLeftSpaces(line);
      if |line| - |mark| <= 3 && IsFence(mark) {
        if fence == 0 {
          fence := mark[0];
        } else if fence == mark[0] {
          fence := 0;
        }
        inCode := false;
        return true;
      }
      if fence == 0 && line == EDIT_SEARCH_LINE {
        inEdit := true;
        return true;
      }
      return false;
    }

    method Track(ch: Char)
      modifies `lineStart, `lineHasText, `inEdit, `fence, `inCode
      ensures TextState() == CiteMarks.Track(old(TextState()), ch)
    {
      if ch.r == NEWLINE {
        lineStart, lineHasText, inCode := [], false, false;
        return;
      }
      if !IsBlank(ch.r) {
        lineHasText := true;
      }
      if |lineStart| < |EDIT_REPLACE_LINE| {
        lineStart := lineStart + ch.raw;
        var acted := ReadLineStart();
        if acted {
          return;
        }
      }
      if ch.r == BACKTICK && fence == 0 && !inEdit {
        inCode := !inCode;
      }
    }

    // The waiting spaces, before a character that is not one.
    method ReleaseSpaces(r: int)
      modifies `out, `spaces
      ensures spaces == []
      ensures emitted + out ==
              old(emitted + out) + if removed && EndsAClause(r) then [] else old(spaces)
    {
      if |spaces| > 0 {
        if !(removed && EndsAClause(r)) {
          Reassociate(emitted, out, spaces);
          out := out + spaces;
        }
        spaces := [];
      }
    }

    method Plain(ch: Char)
      modifies `out, `spaces, `removed, `cjk, `lineStart, `lineHasText, `inEdit, `fence, `inCode
      ensures TextState() == CiteMarks.Plain(old(TextState()), ch)
    {
      if IsBlank(ch.r) {
        PlainBlank(ch);
      } else {
        PlainGlyph(ch);
      }
    }

    method PlainBlank(ch: Char)
      requires IsBlank(ch.r)
      modifies `spaces, `lineStart, `lineHasText, `inEdit, `fence, `inCode
      ensures TextState() == CiteMarks.Plain(old(TextState()), ch)
    {
      if removed && (|spaces| > 0 || !lineHasText) {
        return;
      }
      spaces := spaces + ch.raw;
      Track(ch);
    }

    method PlainGlyph(ch: Char)
      requires !IsBlank(ch.r)
      modifies `out, `spaces, `removed, `cjk, `lineStart, `lineHasText, `inEdit, `fence, `inCode
      ensures TextState() == CiteMarks.Plain(old(TextState()), ch)
    {
      ReleaseSpaces(ch.r);
      removed := false;
      if !cjk && ch.r >= 0x1100 && isCJK(ch.r) {
        cjk := true;
      }
      Reassociate(emitted, out, ch.raw);
      out := out + ch.raw;
      Track(ch);
    }

    // The decoding loops of rewrite and release.
    method PlainText(text: Str)
      modifies `out, `spaces, `removed, `cjk, `lineStart, `lineHasText, `inEdit, `fence, `inCode
      ensures TextState() == PlainAll(old(TextState()), Chars(text))
    {
      var rest := text;
      while |rest| > 0
        invariant PlainAll(TextState(), Chars(rest)) == PlainAll(old(TextState()), Chars(text))
        decreases |rest|
      {
        var ch := Decode(rest);
        assert Chars(rest)[1..] == Chars(rest[|ch.raw|..]);
        Plain(ch);
        rest := rest[|ch.raw|..];
      }
    }

    method Rewrite(text: Str)
      modifies `out, `spaces, `removed, `cjk, `lineStart, `lineHasText, `inEdit, `fence, `inCode
      ensures TextState() == CiteMarks.Rewrite(old(TextState()), text)
    {
      if lineHasText && |spaces| == 0 {
        Plain(Char(SPACE, [SPACE]));
      }
      PlainText(text);
    }

    method Release()
      modifies `out, `spaces, `removed, `cjk, `lineStart, `lineHasText, `inEdit, `fence, `inCode, `holding, `held
      ensures State() == CiteMarks.Release(old(State()))
    {
      var text := held;
      holding := false;
      held := [];
      PlainText(text);
    }

    // The end of resolveMark, for a mark that is one.
    method ReplaceMark(keep: Str)
      modifies `out, `spaces, `removed, `cjk, `lineStart, `lineHasText, `inEdit, `fence, `inCode, `marks
      ensures TextState() == CiteMarks.Replace(old(TextState()), keep)
    {
      CountMark();
      if keep == [] {
        removed := true;
        return;
      }
      Rewrite([0x28] + keep + [0x29]);
    }

    method CountMark()
      modifies `marks
      ensures TextState() == old(TextState()).(marks := old(TextState()).marks + 1)
    {
      marks := marks + 1;
    }

    method ResolveMark(text: Str)
      modifies `out, `spaces, `removed, `cjk, `lineStart, `lineHasText, `inEdit, `fence, `inCode, `holding, `held, `marks
      ensures State() == CiteMarks.ResolveMark(old(State()), text)
    {
      var verdict := Judge(text, dagger, cjk);
      if verdict.Leave? {
        Release();
        return;
      }
      holding := false;
      held := [];
      ReplaceMark(verdict.text);
    }

    method Take(ch: Char)
      modifies `out, `spaces, `removed, `cjk, `lineStart, `lineHasText, `inEdit, `fence, `inCode,
               `holding, `held, `marks, `heldRunes, `dagger
      ensures State() == CiteMarks.Take(old(State()), ch)
    {
      if holding {
        if ch.r == CLOSE_MARK {
          held := held + ch.raw;
          ResolveMark(held);
          return;
        }
        if ch.r == NEWLINE || ch.r == OPEN_MARK || heldRunes >= MAX_CITE_MARK_RUNES {
          Release();
        } else {
          if ch.r == DAGGER {
            dagger := true;
          }
          held := held + ch.raw;
          heldRunes := heldRunes + 1;
          return;
        }
      }
      if ch.r == OPEN_MARK && !(fence != 0 || inEdit || inCode) {
        holding, dagger, heldRunes := true, false, 0;
        held := ch.raw;
        return;
      }
      Plain(ch);
    }

    // One character read off the front of `rest`.
    method TakeFirst(rest: Str) returns (left: Str)
      requires HasTaken() && rest != []
      modifies this
      ensures HasTaken() && taken == old(taken) + [Decode(rest)]
      ensures left == rest[|Decode(rest).raw|..]
      ensures emitted == old(emitted) && fed == old(fed) && partial == old(partial)
    {
      var ch := Decode(rest);
      left := rest[|ch.raw|..];
      Take(ch);
      TakeAllAppend(Start(isCJK, cjkAtStart), taken, [ch]);
      taken := taken + [ch];
    }

    method TakeFull(rest: Str) returns (left: Str)
      requires HasTaken() && Reading(rest) && rest != [] && FullRune(rest)
      modifies this
      ensures HasTaken() && Reading(left) && |left| < |rest|
      ensures emitted == old(emitted) && fed == old(fed) && partial == old(partial)
    {
      ReadingOn(fed, taken, rest);
      left := TakeFirst(rest);
    }

    // What the next call returns is counted from here.
    method StartCall()
      modifies `out, `emitted
      ensures out == [] && emitted == old(emitted + out)
      ensures TextState() == old(TextState())
    {
      emitted := emitted + out;
      out := [];
    }

    // feed: the next piece, and what may be shown of the text so far.
    method Feed(piece: Str) returns (shown: Str)
      requires Valid()
      modifies this
      ensures Valid()
      ensures fed == old(fed) + piece
      ensures emitted + out == old(emitted + out) + shown
    {
      StartCall();
      ghost var before := emitted;
      var rest := partial + piece;
      ReadingMore(fed, taken, partial, piece);
      partial := [];
      fed := fed + piece;
      TakeWhole(rest);
      shown := out;
    }

    // Whole characters are taken, and what is left of one is kept.
    method TakeWhole(given: Str)
      requires HasTaken() && Reading(given) && partial == []
      modifies this
      ensures Valid() && fed == old(fed) && emitted == old(emitted)
    {
      var rest := given;
      while |rest| > 0
        invariant HasTaken() && Reading(rest)
        invariant fed == old(fed) && emitted == old(emitted) && partial == []
        decreases |rest|
      {
        if !FullRune(rest) {
          partial := rest;
          break;
        }
        rest := TakeFull(rest);
      }
    }

    // flush: the end of the stream. All that was ever released is a function of the text.
    method Flush() returns (shown: Str)
      requires Valid()
      modifies this
      ensures emitted + out == old(emitted + out) + shown
      ensures emitted + out == Filtered(isCJK, cjkAtStart, old(fed)).out
      ensures marks == Filtered(isCJK, cjkAtStart, old(fed)).marks
    {
      StartCall();
      TakePartial();
      FinishHeld();
      ReleaseAtEnd();
      shown := out;
    }

    // What flush does with a character the stream was cut off inside.
    method TakePartial()
      requires Valid()
      modifies this
      ensures fed == old(fed) && emitted == old(emitted)
      ensures State() == TakeAll(Start(isCJK, cjkAtStart), Chars(fed))
    {
      assert fed + [] == fed && partial + [] == partial;
      var rest := partial;
      partial := [];
      while |rest| > 0
        invariant HasTaken() && Chars(fed) == taken + Chars(rest)
        invariant fed == old(fed) && emitted == old(emitted)
        decreases |rest|
      {
        Reassociate(taken, [Decode(rest)], Chars(rest[|Decode(rest).raw|..]));
        rest := TakeFirst(rest);
      }
      assert taken + [] == taken;
    }

    method ReleaseAtEnd()
      modifies `out, `spaces
      ensures TextState() == FlushSpaces(old(TextState()))
    {
      if !removed {
        Reassociate(emitted, out, spaces);
        out := out + spaces;
      }
      spaces := [];
    }

    // What flush does with a mark the text ends inside.
    method FinishHeld()
      modifies `out, `spaces, `removed, `cjk, `lineStart, `lineHasText, `inEdit, `fence, `inCode,
               `holding, `held, `marks
      ensures CiteMarks.Finish(old(State())) == State().(core := FlushSpaces(TextState()))
    {
      if holding {
        if dagger || OPEN_BYTES + [0x7B] <= held {
          holding := false;
          held := [];
          marks := marks + 1;
          removed := true;
        } else {
          Release();
        }
      }
    }
  }

  function Concat(pieces: seq<Str>): Str {
    if pieces == [] then [] else Concat(pieces[..|pieces| - 1]) + pieces[|pieces| - 1]
  }

  // However a text is cut into pieces, the filter shows the same text.
  method FilterPieces(isCJK: int -> bool, messages: seq<Message>, pieces: seq<Str>) returns (shown: Str, marks: nat)
    ensures shown == Filtered(isCJK, exists k :: 0 <= k < |messages| && UserWroteCJK(isCJK, messages[k]), Concat(pieces)).out
    ensures marks == Filtered(isCJK, exists k :: 0 <= k < |messages| && UserWroteCJK(isCJK, messages[k]), Concat(pieces)).marks
  {
    var filter := new CiteMarkFilter(isCJK, messages);
    shown := [];
    for i := 0 to |pieces|
      invariant fresh(filter) && filter.Valid()
      invariant filter.fed == Concat(pieces[..i])
      invariant shown == filter.emitted + filter.out
    {
      assert pieces[..i + 1][..i] == pieces[..i];
      var more := filter.Feed(pieces[i]);
      shown := shown + more;
    }
    assert pieces[..|pieces|] == pieces;
    var rest := filter.Flush();
    shown := shown + rest;
    marks := filter.marks;
  }

  // A piece joins what was left over.
  lemma ReadingMore(fed: Str, taken: seq<Char>, rest: Str, piece: Str)
    requires forall q {:trigger fed + q} :: Chars(fed + q) == taken + Chars(rest + q)
    ensures forall q {:trigger fed + piece + q} :: Chars(fed + piece + q) == taken + Chars(rest + piece + q)
  {
    forall q {:trigger fed + piece + q}
      ensures Chars(fed + piece + q) == taken + Chars(rest + piece + q)
    {
      Reassociate(fed, piece, q);
      Reassociate(rest, piece, q);
    }
  }

  // A whole character moves from what is left to what is taken.
  lemma ReadingOn(fed: Str, taken: seq<Char>, rest: Str)
    requires forall q {:trigger fed + q} :: Chars(fed + q) == taken + Chars(rest + q)
    requires FullRune(rest)
    ensures forall q {:trigger fed + q} ::
              Chars(fed + q) == taken + [Decode(rest)] + Chars(rest[|Decode(rest).raw|..] + q)
  {
    forall q {:trigger fed + q}
      ensures Chars(fed + q) == taken + [Decode(rest)] + Chars(rest[|Decode(rest).raw|..] + q)
    {
      CharsOfFull(rest, q);
      Reassociate(taken, [Decode(rest)], Chars(rest[|Decode(rest).raw|..] + q));
    }
  }
}
