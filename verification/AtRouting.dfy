/**
  Which lines make up the response to a command, by its type, and that every other line is
  treated as unsolicited, over any number of calls.
 */
module AtRouting {
  import opened Wrappers
  import opened AtLines
  import opened AtStream

  predicate Accepts(r: Request, line: string) {
    match r.commandType
    case NoResult => false
    case Numeric => line != "" && '0' <= line[0] <= '9'
    case SingleLine => Matches(r, line)
    case MultiLine => Matches(r, line)
    case Pdu => Matches(r, line)
  }

  /** Line i of those received before the final one belongs to the response. */
  predicate Taken(r: Request, lines: seq<string>, i: nat)
    requires i < |lines|
  {
    match r.commandType
    case NoResult => false
    case Numeric => Accepts(r, lines[i]) && forall j :: 0 <= j < i ==> !Accepts(r, lines[j])
    case SingleLine => Accepts(r, lines[i]) && forall j :: 0 <= j < i ==> !Accepts(r, lines[j])
    case MultiLine => Accepts(r, lines[i])
    case Pdu => exists j :: 0 <= j <= i && Accepts(r, lines[j])
  }

  function TakenLines(r: Request, lines: seq<string>): seq<string> {
    if lines == [] then []
    else
      var n := |lines| - 1;
      TakenLines(r, lines[..n]) + if Taken(r, lines, n) then [lines[n]] else []
  }

  function OtherLines(r: Request, lines: seq<string>): seq<string> {
    if lines == [] then []
    else
      var n := |lines| - 1;
      OtherLines(r, lines[..n]) + if Taken(r, lines, n) then [] else [lines[n]]
  }

  /** The engine's test "no line collected so far" is "no line accepted so far". */
  lemma {:induction false} NothingTaken(r: Request, lines: seq<string>)
    requires r.commandType != NoResult
    ensures TakenLines(r, lines) == [] <==> forall j :: 0 <= j < |lines| ==> !Accepts(r, lines[j])
    decreases |lines|
  {
    if lines == [] {
    } else {
      var n := |lines| - 1;
      NothingTaken(r, lines[..n]);
      assert forall j :: 0 <= j < n ==> lines[..n][j] == lines[j];
    }
  }

  lemma JoinsIsTaken(r: Request, seen: seq<string>, line: string)
    ensures Joins(r, TakenLines(r, seen), line) <==> Taken(r, seen + [line], |seen|)
  {
    var all := seen + [line];
    assert all[|seen|] == line && forall j :: 0 <= j < |seen| ==> all[j] == seen[j];
    if r.commandType != NoResult {
      NothingTaken(r, seen);
    }
  }

  /** The request is outstanding and these lines have arrived since. */
  function Collecting(st: State, r: Request, seen: seq<string>): State {
    st.(req := Some(r), lines := if seen == [] then None else Some(TakenLines(r, seen)),
        log := st.log + AsUnsolicited(OtherLines(r, seen)))
  }

  /** The request has been answered by a final line after these. */
  function Answered(st: State, r: Request, seen: seq<string>, final: string): State {
    st.(req := None, lines := None,
        log := st.log + AsUnsolicited(OtherLines(r, seen))
               + [Completed(Response(TakenLines(r, seen), final, CheckFinal(final) == 1))])
  }

  lemma OneMore(r: Request, seen: seq<string>, line: string)
    ensures
      var all := seen + [line];
      if Taken(r, all, |seen|) then
        TakenLines(r, all) == TakenLines(r, seen) + [line] && OtherLines(r, all) == OtherLines(r, seen)
      else
        TakenLines(r, all) == TakenLines(r, seen) && OtherLines(r, all) == OtherLines(r, seen) + [line]
  {
    hide Taken;
    assert (seen + [line])[..|seen|] == seen;
  }

  lemma UnsolicitedSnoc(log: seq<Output>, others: seq<string>, line: string)
    ensures log + AsUnsolicited(others) + [Unsolicited(line)] == log + AsUnsolicited(others + [line])
  {
  }

  lemma DispatchCollecting(st: State, r: Request, seen: seq<string>, line: string)
    requires CheckFinal(line) == 0
    ensures Dispatch(Collecting(st, r, seen), line) == Collecting(st, r, seen + [line])
  {
    JoinsIsTaken(r, seen, line);
    OneMore(r, seen, line);
    UnsolicitedSnoc(st.log, OtherLines(r, seen), line);
    assert seen == [] ==> TakenLines(r, seen) == [];
    hide CheckFinal, Joins, Taken, TakenLines, OtherLines, AsUnsolicited;
  }

  lemma DispatchFinal(st: State, r: Request, seen: seq<string>, line: string)
    requires CheckFinal(line) != 0
    ensures Dispatch(Collecting(st, r, seen), line) == Answered(st, r, seen, line)
  {
    hide CheckFinal, Taken;
  }

  function FirstFinal(lines: seq<string>): (f: Option<nat>)
    ensures f.Some? ==> f.value < |lines| && CheckFinal(lines[f.value]) != 0
    ensures var n := if f.Some? then f.value else |lines|;
      forall i :: 0 <= i < n ==> CheckFinal(lines[i]) == 0
  {
    if lines == [] then None
    else if CheckFinal(lines[0]) != 0 then Some(0)
    else
      match FirstFinal(lines[1..])
      case None => None
      case Some(f) => Some(f + 1)
  }

  /** What follows the first n lines of a stream. */
  function Behind(s: string, n: nat): string
    requires n <= |Lines(s)|
    decreases n
  {
    if n == 0 then s else Behind(CutLine(s).tail, n - 1)
  }

  lemma {:induction false} BehindLines(s: string, n: nat)
    requires n <= |Lines(s)|
    ensures Lines(Behind(s, n)) == Lines(s)[n..]
    decreases n
  {
    if n == 0 {
    } else {
      BehindLines(CutLine(s).tail, n - 1);
    }
  }

  lemma {:induction false} RestIsBehind(s: string)
    ensures Rest(s) == Behind(s, |Lines(s)|)
    decreases |s|
  {
    hide CutLine, Blank, FirstCr;
    match CutLine(s)
    case NoLine =>
    case Line(_, tail) => RestIsBehind(tail);
  }

  /** What the scan makes of a stream u while a request is outstanding. */
  function Outcome(st: State, r: Request, seen: seq<string>, u: string): Turn {
    var lines := Lines(u);
    match FirstFinal(lines)
    case None => Stop(Collecting(st, r, seen + lines).(unread := Rest(u)), false)
    case Some(f) => Stop(Answered(st, r, seen + lines[..f], lines[f]).(unread := Behind(u, f + 1)), true)
  }

  /** Up to the final line, if there is one, the scan meets no prompt that could overrun or be answered. */
  predicate Smooth(r: Request, u: string)
    decreases |u|
  {
    && !AtPrompt(u[Blank(u)..])
    && match CutLine(u)
       case NoLine => true
       case Line(line, tail) => CheckFinal(line) != 0 || (!Asks(r, line) && Smooth(r, tail))
  }

  predicate Asks(r: Request, line: string) {
    r.nextSend.Some? && line == PROMPT
  }

  predicate SmoothCalls(r: Request, u: string, data: seq<string>)
    decreases |data|
  {
    data == [] || (Smooth(r, u + data[0]) && SmoothCalls(r, Rest(u + data[0]), data[1..]))
  }

  lemma {:induction false} ScanCollecting(st: State, r: Request, seen: seq<string>, u: string)
    requires Smooth(r, u)
    ensures Scan(Collecting(st, r, seen).(unread := u)) == Outcome(st, r, seen, u)
    decreases |u|
  {
    hide CutLine, AtPrompt, TakeTurn, CheckFinal, Collecting, Answered, Dispatch;
    var now := Collecting(st, r, seen).(unread := u);
    CollectingShape(st, r, seen, u);
    TurnOnLine(now);
    match CutLine(u)
    case NoLine =>
      assert seen + [] == seen;
    case Line(line, tail) =>
      assert Lines(u)[0] == line && Lines(u)[1..] == Lines(tail);
      DispatchUnread(Collecting(st, r, seen), u, line);
      FinalIsNoPrompt();
      if CheckFinal(line) != 0 {
        DispatchFinal(st, r, seen, line);
        assert seen + Lines(u)[..0] == seen;
        assert Behind(u, 1) == tail;
      } else {
        DispatchCollecting(st, r, seen, line);
        ScanCollecting(st, r, seen + [line], tail);
        OutcomeStep(st, r, seen, line, tail, u);
      }
  }

  lemma CollectingShape(st: State, r: Request, seen: seq<string>, u: string)
    ensures Collecting(st, r, seen).req == Some(r)
    ensures Collecting(st, r, seen).(unread := u).unread == u
  {
  }

  lemma DispatchUnread(st: State, u: string, line: string)
    ensures forall t :: Dispatch(st.(unread := u), line).(unread := t) == Dispatch(st, line).(unread := t)
    ensures IsFinal(st.(unread := u), line) == IsFinal(st, line)
  {
    hide CheckFinal, Joins;
  }

  lemma OutcomeStep(st: State, r: Request, seen: seq<string>, line: string, tail: string, u: string)
    requires CutLine(u) == Line(line, tail) && CheckFinal(line) == 0
    ensures Outcome(st, r, seen + [line], tail) == Outcome(st, r, seen, u)
  {
    hide CutLine, CheckFinal, Collecting, Answered;
    var lines, more := Lines(u), Lines(tail);
    assert lines == [line] + more && lines[1..] == more;
    match FirstFinal(more)
    case None =>
      assert seen + [line] + more == seen + lines;
    case Some(f) =>
      assert seen + [line] + more[..f] == seen + lines[..f + 1];
  }

  /** The data of several calls, none of which holds the final line yet. */
  lemma {:induction false} FeedCollecting(st: State, r: Request, seen: seq<string>, u: string, data: seq<string>)
    requires SmoothCalls(r, u, data)
    requires Lines(u) == [] && Rest(u) == u
    requires FirstFinal(Lines(u + Concat(data))).None?
    ensures var all := u + Concat(data);
      FeedAll(Collecting(st, r, seen).(unread := u), data) == Collecting(st, r, seen + Lines(all)).(unread := Rest(all))
    decreases |data|
  {
    hide Scan, Smooth, Lines, Rest, Collecting, CheckFinal;
    var all := u + Concat(data);
    if data == [] {
      assert all == u && seen + [] == seen;
    } else {
      var first, more := u + data[0], Concat(data[1..]);
      assert all == first + more;
      LinesSplit(first, more);
      NoFinalSplit(Lines(first), Lines(Rest(first) + more));
      ScanCollecting(st, r, seen, first);
      RestSettled(first);
      FeedCollecting(st, r, seen + Lines(first), Rest(first), data[1..]);
      assert seen + Lines(first) + Lines(Rest(first) + more) == seen + Lines(all);
    }
  }

  lemma {:induction false} NoFinalSplit(a: seq<string>, b: seq<string>)
    ensures FirstFinal(a + b).None? ==> FirstFinal(a).None? && FirstFinal(b).None?
    ensures FirstFinal(a).None? ==>
      FirstFinal(a + b) == match FirstFinal(b) case None => None case Some(f) => Some(|a| + f)
  {
    hide CheckFinal;
    if a == [] {
      assert a + b == b;
    } else {
      assert (a + b)[1..] == a[1..] + b;
      NoFinalSplit(a[1..], b);
    }
  }

  lemma {:induction false} BehindSplit(a: string, b: string, n: nat)
    requires n <= |Lines(Rest(a) + b)|
    ensures |Lines(a)| + n <= |Lines(a + b)|
    ensures Behind(a + b, |Lines(a)| + n) == Behind(Rest(a) + b, n)
    decreases |a|
  {
    hide CutLine, Blank, FirstCr;
    LinesSplit(a, b);
    match CutLine(a)
    case NoLine =>
    case Line(line, tail) =>
      CutLineExtends(a, b);
      BehindSplit(tail, b, n);
  }

  /**
    The response to a request, however its lines are cut into calls: the lines that its type
    takes, all others unsolicited in order, and what follows the final line left for the next call.
    Lines that start like a prompt are lines like any other, as long as no call ends in a bare one.
   */
  lemma ResponseAcrossCalls(st: State, r: Request, early: seq<string>, last: string)
    requires st.req == Some(r) && st.lines == None
    requires Lines(st.unread) == [] && Rest(st.unread) == st.unread
    requires SmoothCalls(r, st.unread, early) && Smooth(r, Rest(st.unread + Concat(early)) + last)
    requires FirstFinal(Lines(st.unread + Concat(early))).None?
    ensures var all := st.unread + Concat(early) + last;
      match FirstFinal(Lines(all))
      case None => Receive(FeedAll(st, early), last) == Stop(Collecting(st, r, Lines(all)).(unread := Rest(all)), false)
      case Some(f) =>
        var answered := Answered(st, r, Lines(all)[..f], Lines(all)[f]);
        Receive(FeedAll(st, early), last) == Stop(answered.(unread := Behind(all, f + 1)), true)
  {
    hide *;
    StartCollecting(st, r);
    CollectedAcrossCalls(st, r, [], st.unread, early, last);
    var lines := Lines(st.unread + Concat(early) + last);
    assert forall n :: 0 <= n <= |lines| ==> [] + lines[..n] == lines[..n];
    assert [] + lines == lines;
  }

  /** The same from any point of the response on. */
  lemma CollectedAcrossCalls(st: State, r: Request, seen: seq<string>, unread: string, early: seq<string>, last: string)
    requires Lines(unread) == [] && Rest(unread) == unread
    requires SmoothCalls(r, unread, early) && Smooth(r, Rest(unread + Concat(early)) + last)
    requires FirstFinal(Lines(unread + Concat(early))).None?
    ensures var all := unread + Concat(early) + last;
      var got := Receive(FeedAll(Collecting(st, r, seen).(unread := unread), early), last);
      match FirstFinal(Lines(all))
      case None => got == Stop(Collecting(st, r, seen + Lines(all)).(unread := Rest(all)), false)
      case Some(f) =>
        got == Stop(Answered(st, r, seen + Lines(all)[..f], Lines(all)[f]).(unread := Behind(all, f + 1)), true)
  {
    hide Scan, Smooth, SmoothCalls, FeedAll, Concat, FirstFinal, Lines, Rest, CheckFinal, Answered, Collecting, Behind;
    var before := unread + Concat(early);
    var all := before + last;
    LinesSplit(before, last);
    FeedCollecting(st, r, seen, unread, early);
    var u := Rest(before) + last;
    ScanCollecting(st, r, seen + Lines(before), u);
    NoFinalSplit(Lines(before), Lines(u));
    CollectingUnread(st, r, seen + Lines(before), Rest(before), u);
    match FirstFinal(Lines(u))
    case None =>
      assert seen + Lines(before) + Lines(u) == seen + Lines(all);
    case Some(f) =>
      BehindSplit(before, last, f + 1);
      assert seen + Lines(before) + Lines(u)[..f] == seen + Lines(all)[..|Lines(before)| + f];
  }

  lemma StartCollecting(st: State, r: Request)
    requires st.req == Some(r) && st.lines == None
    ensures Collecting(st, r, []).(unread := st.unread) == st
  {
    assert st.log + AsUnsolicited([]) == st.log;
  }

  lemma CollectingUnread(st: State, r: Request, seen: seq<string>, a: string, b: string)
    ensures Collecting(st, r, seen).(unread := a).(unread := b) == Collecting(st, r, seen).(unread := b)
  {
  }

  // ---------------------------------------------------------------------------------------
  // Requests without a second part: which calls overrun.
  // ---------------------------------------------------------------------------------------

  /** The call comes to a bare prompt, and to no final line before it if a request is outstanding. */
  predicate CallMeetsPrompt(busy: bool, u: string) {
    (busy ==> FirstFinal(Lines(u)).None?) && BarePrompt(Rest(u))
  }

  /** Where no second part waits, octets other than NUL are smooth exactly when the call meets no bare prompt. */
  lemma {:induction false} SmoothExactly(r: Request, u: string)
    requires r.nextSend.None? && NUL !in u
    ensures Smooth(r, u) <==> !CallMeetsPrompt(true, u)
    decreases |u|
  {
    NulFreeQuiet(u);
    BareIsPrompt(u);
    BareHasNoLine(u);
    hide CheckFinal, AtPrompt, BarePrompt;
    match CutLine(u)
    case NoLine =>
    case Line(line, tail) =>
      SmoothExactly(r, tail);
      assert Lines(u)[0] == line && Lines(u)[1..] == Lines(tail);
  }

  lemma BareIsPrompt(u: string)
    requires NUL !in u
    ensures AtPrompt(u[Blank(u)..]) <==> BarePrompt(u)
  {
    var t := u[Blank(u)..];
    assert |t| > 2 ==> t[2] in u;
  }

  /** One call while a request without a second part is outstanding. */
  lemma {:induction false} ScanBusy(st: State, r: Request)
    requires st.req == Some(r) && r.nextSend.None? && !st.overrun && NUL !in st.unread
    ensures Scan(st).state.overrun <==> CallMeetsPrompt(true, st.unread)
    ensures !CallMeetsPrompt(true, st.unread) ==>
      match FirstFinal(Lines(st.unread))
      case None => Scan(st).state.req == Some(r) && Scan(st).state.unread == Rest(st.unread)
      case Some(f) => Scan(st).state.req == None && Scan(st).state.unread == Behind(st.unread, f + 1)
    decreases |st.unread|
  {
    var u := st.unread;
    BareIsPrompt(u);
    BareHasNoLine(u);
    BareTurns(st);
    OverrunExactlyAtBarePrompt(st);
    hide CutLine, AtPrompt, TakeTurn, CheckFinal, Joins, BarePrompt, Scan;
    if BarePrompt(u) {
      if TakeTurn(st).More? {
        OverrunForever(TakeTurn(st).state);
      }
    } else {
      TurnOnLine(st);
      match CutLine(u)
      case NoLine =>
      case Line(line, tail) =>
        assert Lines(u)[0] == line && Lines(u)[1..] == Lines(tail);
        if CheckFinal(line) != 0 {
          assert Behind(u, 1) == tail;
        } else {
          ScanBusy(TakeTurn(st).state, r);
        }
    }
  }

  /** Some call meets a bare prompt; the first final line ends the request. */
  predicate CallsMeetPrompt(busy: bool, u: string, data: seq<string>)
    decreases |data|
  {
    && data != []
    && var v := u + data[0];
       || CallMeetsPrompt(busy, v)
       || match if busy then FirstFinal(Lines(v)) else None
          case None => CallsMeetPrompt(busy, Rest(v), data[1..])
          case Some(f) => CallsMeetPrompt(false, Behind(v, f + 1), data[1..])
  }

  lemma TailNulFree(u: string)
    requires NUL !in u && CutLine(u).Line?
    ensures NUL !in CutLine(u).tail
  {
    BareHasNoLine(u);
  }

  lemma {:induction false} NulFreeBehind(u: string, n: nat)
    requires n <= |Lines(u)| && NUL !in u
    ensures NUL !in Behind(u, n)
    decreases n
  {
    hide CutLine;
    if n == 0 {
    } else {
      TailNulFree(u);
      NulFreeBehind(CutLine(u).tail, n - 1);
    }
  }

  lemma NulFreeRest(v: string)
    requires NUL !in v
    ensures NUL !in Rest(v)
  {
    NulFreeQuiet(v);
  }

  /** One call, with a request outstanding or without. */
  lemma CallExactly(st: State)
    requires (st.req.Some? ==> st.req.value.nextSend.None?) && !st.overrun && NUL !in st.unread
    ensures Scan(st).state.overrun <==> CallMeetsPrompt(st.req.Some?, st.unread)
    ensures !CallMeetsPrompt(st.req.Some?, st.unread) ==>
      match if st.req.Some? then FirstFinal(Lines(st.unread)) else None
      case None => Scan(st).state.req == st.req && Scan(st).state.unread == Rest(st.unread)
      case Some(f) => Scan(st).state.req == None && Scan(st).state.unread == Behind(st.unread, f + 1)
  {
    hide Scan, Quiet, EndsInPrompt, Lines, Rest, BarePrompt, FirstFinal;
    NulFreeQuiet(st.unread);
    match st.req
    case Some(r) => ScanBusy(st, r);
    case None =>
      if EndsInPrompt(st.unread) {
        ScanOverruns(st);
      } else {
        ScanIdle(st);
      }
  }

  /**
    On octets other than NUL, with no second part to send, the read position overruns exactly when some
    call comes to a bare prompt before it comes to the final line of the request, if one is outstanding.
   */
  lemma {:induction false} CallsExactly(st: State, data: seq<string>)
    requires (st.req.Some? ==> st.req.value.nextSend.None?) && !st.overrun && NUL !in st.unread + Concat(data)
    ensures FeedAll(st, data).overrun <==> CallsMeetPrompt(st.req.Some?, st.unread, data)
    decreases |data|
  {
    hide Scan, Lines, Rest, CallMeetsPrompt, FirstFinal, Behind;
    if data == [] {
    } else {
      var v := st.unread + data[0];
      var now, next := st.(unread := v), Receive(st, data[0]).state;
      assert forall c :: c in v || c in Concat(data[1..]) ==> c in st.unread + Concat(data);
      CallExactly(now);
      if CallMeetsPrompt(st.req.Some?, v) {
        FeedOverrun(next, data[1..]);
      } else {
        NulFreeQuiet(v);
        match if st.req.Some? then FirstFinal(Lines(v)) else None {
          case None =>
          case Some(f) => NulFreeBehind(v, f + 1);
        }
        assert NUL !in next.unread && NUL !in Concat(data[1..]);
        CallsExactly(next, data[1..]);
      }
    }
  }

  lemma {:induction false} FeedSnoc(st: State, early: seq<string>, last: string)
    ensures FeedAll(st, early + [last]) == Receive(FeedAll(st, early), last).state
    decreases |early|
  {
    hide Scan;
    if early == [] {
      assert [] + [last] == [last] && [last][1..] == [];
    } else {
      assert (early + [last])[1..] == early[1..] + [last];
      FeedSnoc(Receive(st, early[0]).state, early[1..], last);
    }
  }

  /** Calls of which only the last may hold the final line are smooth exactly when none meets a bare prompt. */
  lemma {:induction false} SmoothCallsExactly(r: Request, u: string, early: seq<string>, last: string)
    requires r.nextSend.None? && NUL !in u + Concat(early) + last
    requires FirstFinal(Lines(u + Concat(early))).None?
    requires Rest(u) == u
    ensures SmoothCalls(r, u, early) && Smooth(r, Rest(u + Concat(early)) + last)
      <==> !CallsMeetPrompt(true, u, early + [last])
    decreases |early|
  {
    hide Lines, Rest, Smooth, FirstFinal, CallMeetsPrompt;
    if early == [] {
      assert u + "" == u && [] + [last] == [last] && [last][1..] == [];
      SmoothExactly(r, u + last);
    } else {
      var v, more := u + early[0], Concat(early[1..]);
      assert u + Concat(early) == v + more;
      assert forall c <- v :: c in u + Concat(early) + last;
      SmoothExactly(r, v);
      LinesSplit(v, more);
      NoFinalSplit(Lines(v), Lines(Rest(v) + more));
      assert (early + [last])[0] == early[0] && (early + [last])[1..] == early[1..] + [last];
      RestSettled(v);
      NulFreeRest(v);
      assert NUL !in Rest(v) && NUL !in more && NUL !in last;
      SmoothCallsExactly(r, Rest(v), early[1..], last);
    }
  }

  /**
    The response to a request without a second part, on octets other than NUL and under any cutting:
    the read position overruns exactly when a call meets a bare prompt before the final line, and the
    response and what is left unread are those of ResponseAcrossCalls when none does.
   */
  lemma ResponseExactly(st: State, r: Request, early: seq<string>, last: string)
    requires st.req == Some(r) && st.lines == None && r.nextSend.None? && !st.overrun
    requires Lines(st.unread) == [] && Rest(st.unread) == st.unread && NUL !in st.unread + Concat(early) + last
    requires FirstFinal(Lines(st.unread + Concat(early))).None?
    ensures Receive(FeedAll(st, early), last).state.overrun <==> CallsMeetPrompt(true, st.unread, early + [last])
    ensures
      var all, got := st.unread + Concat(early) + last, Receive(FeedAll(st, early), last);
      !CallsMeetPrompt(true, st.unread, early + [last]) ==>
        match FirstFinal(Lines(all))
        case None => got == Stop(Collecting(st, r, Lines(all)).(unread := Rest(all)), false)
        case Some(f) =>
          var answered := Answered(st, r, Lines(all)[..f], Lines(all)[f]);
          got == Stop(answered.(unread := Behind(all, f + 1)), true)
  {
    hide *;
    FeedSnoc(st, early, last);
    ConcatSnoc(early, last);
    assert st.unread + Concat(early + [last]) == st.unread + Concat(early) + last;
    CallsExactly(st, early + [last]);
    SmoothCallsExactly(r, st.unread, early, last);
    if !CallsMeetPrompt(true, st.unread, early + [last]) {
      ResponseAcrossCalls(st, r, early, last);
    }
  }

  lemma {:induction false} ConcatSnoc(early: seq<string>, last: string)
    ensures Concat(early + [last]) == Concat(early) + last
    decreases |early|
  {
    if early == [] {
      assert [] + [last] == [last] && [last][1..] == [];
    } else {
      assert (early + [last])[1..] == early[1..] + [last];
      ConcatSnoc(early[1..], last);
    }
  }
}
