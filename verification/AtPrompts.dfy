/**
  Commands of two parts: the prompt that asks for the second part, in the middle of the lines of the
  response.
 */
module AtPrompts {
  import opened Wrappers
  import opened AtLines
  import opened AtStream
  import opened AtRouting

  // ---------------------------------------------------------------------------------------
  // What was emitted before has no influence on what is emitted next.
  // ---------------------------------------------------------------------------------------

  function Prefixed(log: seq<Output>, st: State): State {
    st.(log := log + st.log)
  }

  function PrefixedTurn(log: seq<Output>, t: Turn): Turn {
    match t
    case More(s) => More(Prefixed(log, s))
    case Stop(s, done) => Stop(Prefixed(log, s), done)
  }

  lemma DispatchPrefixed(log: seq<Output>, st: State, line: string)
    ensures Dispatch(Prefixed(log, st), line) == Prefixed(log, Dispatch(st, line))
  {
    hide CheckFinal, Joins;
  }

  lemma TurnPrefixed(log: seq<Output>, st: State)
    ensures TakeTurn(Prefixed(log, st)) == PrefixedTurn(log, TakeTurn(st))
  {
    hide CheckFinal, NextLine, Dispatch;
    match NextLine(st.unread)
    case None =>
    case Some(span) =>
      var line := st.unread[span.start..span.end];
      DispatchPrefixed(log, st, line);
      DispatchKeepsUnread(st, line);
      DispatchKeepsUnread(Prefixed(log, st), line);
  }

  lemma DispatchKeepsUnread(st: State, line: string)
    ensures Dispatch(st, line).unread == st.unread
  {
    hide CheckFinal, Joins;
  }

  lemma {:induction false} ScanPrefixed(log: seq<Output>, st: State)
    ensures Scan(Prefixed(log, st)) == PrefixedTurn(log, Scan(st))
    decreases |st.unread|
  {
    hide TakeTurn;
    TurnPrefixed(log, st);
    match TakeTurn(st)
    case Stop(_, _) =>
    case More(next) => ScanPrefixed(log, next);
  }

  lemma {:induction false} FeedPrefixed(log: seq<Output>, st: State, data: seq<string>)
    ensures FeedAll(Prefixed(log, st), data) == Prefixed(log, FeedAll(st, data))
    decreases |data|
  {
    hide Scan;
    if data == [] {
    } else {
      ScanPrefixed(log, st.(unread := st.unread + data[0]));
      FeedPrefixed(log, Receive(st, data[0]).state, data[1..]);
    }
  }

  // ---------------------------------------------------------------------------------------
  // The prompt.
  // ---------------------------------------------------------------------------------------

  /** Behind lines that neither are final nor ask, the octets end in a bare prompt. */
  predicate ComesToPrompt(r: Request, u: string)
    decreases |u|
  {
    || BarePrompt(u)
    || (&& !AtPrompt(u[Blank(u)..]) && CutLine(u).Line?
        && CheckFinal(CutLine(u).line) == 0 && !Asks(r, CutLine(u).line)
        && ComesToPrompt(r, CutLine(u).tail))
  }

  /** The second part has been sent. */
  function Asked(st: State, r: Request, seen: seq<string>): State
    requires r.nextSend.Some?
  {
    var c := Collecting(st, r, seen);
    c.(unread := "", log := c.log + [SendNext(r.nextSend.value)])
  }

  lemma BareAsked(st: State)
    requires st.req.Some? && st.req.value.nextSend.Some? && BarePrompt(st.unread)
    ensures TakeTurn(st) == Stop(st.(unread := "", log := st.log + [SendNext(st.req.value.nextSend.value)]), false)
  {
    var k := Blank(st.unread);
    var t := st.unread[k..];
    EolAtEnd(t);
    hide Blank, FindEol;
    assert st.unread[k..k + 2] == PROMPT;
  }

  lemma {:induction false} ScanAsked(st: State, r: Request, seen: seq<string>, u: string)
    requires r.nextSend.Some? && ComesToPrompt(r, u)
    ensures Scan(Collecting(st, r, seen).(unread := u)) == Stop(Asked(st, r, seen + Lines(u)), false)
    ensures FirstFinal(Lines(u)).None?
    decreases |u|
  {
    hide CutLine, AtPrompt, TakeTurn, CheckFinal, Collecting, Dispatch, BarePrompt;
    var now := Collecting(st, r, seen).(unread := u);
    CollectingShape(st, r, seen, u);
    BareHasNoLine(u);
    if BarePrompt(u) {
      BareAsked(now);
      assert seen + Lines(u) == seen;
    } else {
      TurnOnLine(now);
      var line, tail := CutLine(u).line, CutLine(u).tail;
      DispatchUnread(Collecting(st, r, seen), u, line);
      DispatchCollecting(st, r, seen, line);
      ScanAsked(st, r, seen + [line], tail);
      assert Lines(u) == [line] + Lines(tail) && Lines(u)[1..] == Lines(tail);
      assert seen + [line] + Lines(tail) == seen + Lines(u);
    }
  }

  lemma OthersGrow(r: Request, seen: seq<string>, more: seq<string>)
    ensures OtherLines(r, seen) <= OtherLines(r, seen + more)
    decreases |more|
  {
    if more == [] {
      assert seen + more == seen;
    } else {
      var n := |more| - 1;
      OthersGrow(r, seen, more[..n]);
      assert (seen + more)[..|seen| + n] == seen + more[..n];
    }
  }

  /** The lines behind the prompt that are not the response's. */
  function LaterOthers(r: Request, first: seq<string>, second: seq<string>): seq<string> {
    OthersGrow(r, first, second);
    OtherLines(r, first + second)[|OtherLines(r, first)|..]
  }

  /** The exchange from the prompt on, its log put behind what was emitted up to the prompt. */
  lemma AnsweredPrefixed(st: State, r: Request, first: seq<string>, second: seq<string>, final: string)
    requires r.nextSend.Some?
    ensures var clean := st.(log := []);
      var log := Collecting(st, r, first).log + [SendNext(r.nextSend.value)];
      var d := AsUnsolicited(LaterOthers(r, first, second))
        + [Completed(Response(TakenLines(r, first + second), final, CheckFinal(final) == 1))];
      && Answered(clean, r, first + second, final).log == AsUnsolicited(OtherLines(r, first)) + d
      && Asked(st, r, first) == Prefixed(log, Collecting(clean, r, first).(unread := "", log := []))
      && Collecting(clean, r, first).(unread := "")
         == Prefixed(AsUnsolicited(OtherLines(r, first)), Collecting(clean, r, first).(unread := "", log := []))
  {
    hide CheckFinal, TakenLines;
    OthersGrow(r, first, second);
    var old_, all := OtherLines(r, first), OtherLines(r, first + second);
    hide OtherLines;
    assert all == old_ + all[|old_|..];
    assert AsUnsolicited(all) == AsUnsolicited(old_) + AsUnsolicited(all[|old_|..]);
  }

  /**
    A command of two parts, its octets cut into calls in any way that leaves the prompt bare at the
    end of one: the second part goes out once, at the prompt, and the response holds the lines its
    type takes from those before and behind the prompt together.
   */
  lemma TwoPartExchange(st: State, r: Request, early: seq<string>, ask: string, later: seq<string>, last: string)
    requires st.req == Some(r) && st.lines == None && r.nextSend.Some?
    requires Lines(st.unread) == [] && Rest(st.unread) == st.unread
    requires SmoothCalls(r, st.unread, early) && FirstFinal(Lines(st.unread + Concat(early))).None?
    requires ComesToPrompt(r, Rest(st.unread + Concat(early)) + ask)
    requires SmoothCalls(r, "", later) && FirstFinal(Lines(Concat(later))).None?
    requires Smooth(r, Rest(Concat(later)) + last) && FirstFinal(Lines(Concat(later) + last)).Some?
    ensures
      var first := Lines(st.unread + Concat(early) + ask);
      var behind := Concat(later) + last;
      var f := FirstFinal(Lines(behind)).value;
      var second, final := Lines(behind)[..f], Lines(behind)[f];
      Receive(FeedAll(FeedAll(st, early + [ask]), later), last) == Stop(
        st.(req := None, lines := None, unread := Behind(behind, f + 1),
            log := st.log + AsUnsolicited(OtherLines(r, first)) + [SendNext(r.nextSend.value)]
                   + AsUnsolicited(LaterOthers(r, first, second))
                   + [Completed(Response(TakenLines(r, first + second), final, CheckFinal(final) == 1))]), true)
  {
    hide Scan, Smooth, SmoothCalls, Lines, Rest, CheckFinal, Answered, Collecting, Behind, ComesToPrompt;
    var before := st.unread + Concat(early);
    var u, first := Rest(before) + ask, Lines(before + ask);
    LinesSplit(before, ask);
    StartCollecting(st, r);
    FeedCollecting(st, r, [], st.unread, early);
    assert [] + Lines(before) == Lines(before);
    CollectingUnread(st, r, Lines(before), Rest(before), u);
    ScanAsked(st, r, Lines(before), u);
    FeedSnoc(st, early, ask);
    assert FeedAll(st, early + [ask]) == Asked(st, r, first);
    SecondPart(st, r, first, later, last);
  }

  lemma SecondPart(st: State, r: Request, first: seq<string>, later: seq<string>, last: string)
    requires r.nextSend.Some?
    requires SmoothCalls(r, "", later) && FirstFinal(Lines(Concat(later))).None?
    requires Smooth(r, Rest(Concat(later)) + last) && FirstFinal(Lines(Concat(later) + last)).Some?
    ensures
      var behind := Concat(later) + last;
      var f := FirstFinal(Lines(behind)).value;
      var second, final := Lines(behind)[..f], Lines(behind)[f];
      Receive(FeedAll(Asked(st, r, first), later), last) == Stop(
        st.(req := None, lines := None, unread := Behind(behind, f + 1),
            log := st.log + AsUnsolicited(OtherLines(r, first)) + [SendNext(r.nextSend.value)]
                   + AsUnsolicited(LaterOthers(r, first, second))
                   + [Completed(Response(TakenLines(r, first + second), final, CheckFinal(final) == 1))]), true)
  {
    hide *;
    var behind := Concat(later) + last;
    var f := FirstFinal(Lines(behind)).value;
    var second, final := Lines(behind)[..f], Lines(behind)[f];
    var clean := st.(log := []);
    var from := Collecting(clean, r, first).(unread := "", log := []);
    RestOfNothing();
    assert "" + Concat(later) == Concat(later) && "" + Concat(later) + last == behind;
    AnsweredPrefixed(st, r, first, second, final);
    CollectedAcrossCalls(clean, r, first, "", later, last);
    var log0 := AsUnsolicited(OtherLines(r, first));
    var log1 := Collecting(st, r, first).log + [SendNext(r.nextSend.value)];
    ExchangePrefixed(log0, from, later, last);
    ExchangePrefixed(log1, from, later, last);
    var d := AsUnsolicited(LaterOthers(r, first, second))
      + [Completed(Response(TakenLines(r, first + second), final, CheckFinal(final) == 1))];
    var answered := Answered(clean, r, first + second, final).(unread := Behind(behind, f + 1));
    SamePrefix(Receive(FeedAll(from, later), last), log0, log1, answered, d, true);
    AnsweredShape(st, r, first, second, final);
  }

  lemma AnsweredShape(st: State, r: Request, first: seq<string>, second: seq<string>, final: string)
    ensures Answered(st.(log := []), r, first + second, final).(log := [], unread := "")
      == st.(req := None, lines := None, log := [], unread := "")
    ensures Collecting(st, r, first).log == st.log + AsUnsolicited(OtherLines(r, first))
  {
    hide CheckFinal, TakenLines, OtherLines;
  }

  lemma SamePrefix(t: Turn, log0: seq<Output>, log1: seq<Output>, st: State, d: seq<Output>, done: bool)
    requires PrefixedTurn(log0, t) == Stop(st, done) && st.log == log0 + d
    ensures PrefixedTurn(log1, t) == Stop(st.(log := log1 + d), done)
  {
    var got := t.state.log;
    assert got == (log0 + got)[|log0|..] == (log0 + d)[|log0|..] == d;
  }

  lemma ExchangePrefixed(log: seq<Output>, st: State, data: seq<string>, last: string)
    ensures Receive(FeedAll(Prefixed(log, st), data), last) == PrefixedTurn(log, Receive(FeedAll(st, data), last))
  {
    hide Scan, FeedAll;
    FeedPrefixed(log, st, data);
    var s := FeedAll(st, data);
    ScanPrefixed(log, s.(unread := s.unread + last));
  }

  // ---------------------------------------------------------------------------------------
  // One call, whatever was emitted before it.
  // ---------------------------------------------------------------------------------------

  /** The request is outstanding and these lines have been taken since. */
  predicate InProgress(st: State, r: Request, seen: seq<string>) {
    && st.req == Some(r)
    && st.lines == if seen == [] then None else Some(TakenLines(r, seen))
  }

  /** The state of a response in progress, its log aside. */
  function From(st: State, u: string): State {
    st.(log := [], unread := u)
  }

  lemma FromPrefixed(st: State, r: Request, seen: seq<string>, u: string)
    requires InProgress(st, r, seen)
    ensures Prefixed(AsUnsolicited(OtherLines(r, seen)), From(st, u))
      == Collecting(st.(log := []), r, seen).(unread := u)
    ensures Prefixed(st.log, From(st, u)) == st.(unread := u)
  {
    hide TakenLines, OtherLines;
  }

  lemma OthersSplit(r: Request, seen: seq<string>, more: seq<string>)
    ensures AsUnsolicited(OtherLines(r, seen + more))
      == AsUnsolicited(OtherLines(r, seen)) + AsUnsolicited(LaterOthers(r, seen, more))
  {
    OthersGrow(r, seen, more);
    var old_, all := OtherLines(r, seen), OtherLines(r, seen + more);
    hide OtherLines;
    assert all == old_ + all[|old_|..];
  }

  /** What a call emits does not depend on the log; d is what it emits here. */
  lemma SameEmitted(st: State, r: Request, seen: seq<string>, u: string, after: State, d: seq<Output>, done: bool)
    requires InProgress(st, r, seen)
    requires Scan(Collecting(st.(log := []), r, seen).(unread := u)) == Stop(after, done)
    requires after.log == AsUnsolicited(OtherLines(r, seen)) + d
    ensures Scan(st.(unread := u)) == Stop(after.(log := st.log + d), done)
  {
    hide *;
    var log0 := AsUnsolicited(OtherLines(r, seen));
    FromPrefixed(st, r, seen, u);
    ScanPrefixed(log0, From(st, u));
    ScanPrefixed(st.log, From(st, u));
    SamePrefix(Scan(From(st, u)), log0, st.log, after, d, done);
  }

  lemma CollectedShape(st: State, r: Request, lines: seq<string>, rest: string, log: seq<Output>)
    requires st.req == Some(r)
    ensures
      var t := Collecting(st.(log := []), r, lines).(unread := rest, log := log);
      && t == st.(unread := rest, lines := t.lines, log := log)
      && InProgress(t, r, lines)
    ensures Collecting(st.(log := []), r, lines).(unread := rest).log == AsUnsolicited(OtherLines(r, lines))
  {
    hide TakenLines, OtherLines, AsUnsolicited;
    assert [] + AsUnsolicited(OtherLines(r, lines)) == AsUnsolicited(OtherLines(r, lines));
  }

  lemma OutcomeOf(st: State, r: Request, seen: seq<string>, u: string)
    ensures var lines := Lines(u);
      match FirstFinal(lines)
      case None => Outcome(st, r, seen, u) == Stop(Collecting(st, r, seen + lines).(unread := Rest(u)), false)
      case Some(f) =>
        Outcome(st, r, seen, u)
          == Stop(Answered(st, r, seen + lines[..f], lines[f]).(unread := Behind(u, f + 1)), true)
  {
    hide Collecting, Answered, Lines, Rest, Behind, FirstFinal;
  }

  /** A call that does not complete the response. */
  lemma ScanOn(st: State, r: Request, seen: seq<string>, u: string, t: State)
    requires InProgress(st, r, seen) && Smooth(r, u) && FirstFinal(Lines(u)).None?
    requires t == Scan(st.(unread := u)).state
    ensures Scan(st.(unread := u)) == Stop(t, false)
    ensures t == st.(unread := Rest(u), lines := t.lines,
                     log := st.log + AsUnsolicited(LaterOthers(r, seen, Lines(u))))
    ensures InProgress(t, r, seen + Lines(u))
  {
    assert st.req == Some(r);
    hide *;
    var clean, lines := st.(log := []), Lines(u);
    ScanCollecting(clean, r, seen, u);
    OutcomeOf(clean, r, seen, u);
    OthersSplit(r, seen, lines);
    var later := AsUnsolicited(LaterOthers(r, seen, lines));
    CollectedShape(st, r, seen + lines, Rest(u), st.log + later);
    SameEmitted(st, r, seen, u, Collecting(clean, r, seen + lines).(unread := Rest(u)), later, false);
  }

  lemma DoneShape(st: State, r: Request, lines: seq<string>, final: string, rest: string, log: seq<Output>)
    ensures Answered(st.(log := []), r, lines, final).(unread := rest, log := log)
      == st.(unread := rest, req := None, lines := None, log := log)
    ensures
      var response := Response(TakenLines(r, lines), final, CheckFinal(final) == 1);
      Answered(st.(log := []), r, lines, final).(unread := rest).log
        == AsUnsolicited(OtherLines(r, lines)) + [Completed(response)]
  {
    hide TakenLines, OtherLines, AsUnsolicited, CheckFinal;
    assert [] + AsUnsolicited(OtherLines(r, lines)) == AsUnsolicited(OtherLines(r, lines));
  }

  lemma Grouped(a: seq<Output>, b: seq<Output>, c: seq<Output>)
    ensures a + b + c == a + (b + c)
  {
  }

  /** A call that completes the response. */
  lemma ScanDone(st: State, r: Request, seen: seq<string>, u: string, f: nat, last: Output)
    requires InProgress(st, r, seen) && Smooth(r, u) && FirstFinal(Lines(u)) == Some(f) && f < |Lines(u)|
    requires
      var final := Lines(u)[f];
      last == Completed(Response(TakenLines(r, seen + Lines(u)[..f]), final, CheckFinal(final) == 1))
    ensures Scan(st.(unread := u)) == Stop(
      st.(unread := Behind(u, f + 1), req := None, lines := None,
          log := st.log + AsUnsolicited(LaterOthers(r, seen, Lines(u)[..f])) + [last]), true)
  {
    hide *;
    var clean, lines := st.(log := []), Lines(u);
    ScanCollecting(clean, r, seen, u);
    OutcomeOf(clean, r, seen, u);
    OthersSplit(r, seen, lines[..f]);
    var later := AsUnsolicited(LaterOthers(r, seen, lines[..f]));
    DoneShape(st, r, seen + lines[..f], lines[f], Behind(u, f + 1), st.log + (later + [last]));
    Grouped(AsUnsolicited(OtherLines(r, seen)), later, [last]);
    Grouped(st.log, later, [last]);
    var after := Answered(clean, r, seen + lines[..f], lines[f]).(unread := Behind(u, f + 1));
    SameEmitted(st, r, seen, u, after, later + [last], true);
  }

  lemma AskedIs(st: State, r: Request, lines: seq<string>)
    requires r.nextSend.Some?
    ensures
      var c := Collecting(st, r, lines).(unread := "");
      Asked(st, r, lines) == c.(log := c.log + [SendNext(r.nextSend.value)])
  {
    hide Collecting;
  }

  /** A call that comes to the prompt: the second part goes out. */
  lemma ScanAsks(st: State, r: Request, seen: seq<string>, u: string, t: State)
    requires InProgress(st, r, seen) && r.nextSend.Some? && ComesToPrompt(r, u)
    requires t == Scan(st.(unread := u)).state
    ensures FirstFinal(Lines(u)).None? && Scan(st.(unread := u)) == Stop(t, false)
    ensures t == st.(unread := "", lines := t.lines,
                     log := st.log + AsUnsolicited(LaterOthers(r, seen, Lines(u))) + [SendNext(r.nextSend.value)])
    ensures InProgress(t, r, seen + Lines(u))
  {
    assert st.req == Some(r);
    hide *;
    var clean, lines := st.(log := []), Lines(u);
    ScanAsked(clean, r, seen, u);
    AskedIs(clean, r, seen + lines);
    OthersSplit(r, seen, lines);
    var later, send := AsUnsolicited(LaterOthers(r, seen, lines)), [SendNext(r.nextSend.value)];
    CollectedShape(st, r, seen + lines, "", st.log + (later + send));
    Grouped(AsUnsolicited(OtherLines(r, seen)), later, send);
    Grouped(st.log, later, send);
    SameEmitted(st, r, seen, u, Asked(clean, r, seen + lines), later + send, false);
  }
}
