/**
  What the AT line engine does with a whole stream, however it is cut into calls: the lines it
  finds, and the response it builds for each type of command.
 */
module AtStream {
  import opened Wrappers
  import opened AtLines

  /** The first complete line of a stream, and what follows the CR that ends it. */
  datatype Cut = NoLine | Line(line: string, tail: string)

  function CutLine(s: string): (c: Cut)
    ensures c.Line? ==> |c.tail| < |s|
  {
    var t := s[Blank(s)..];
    match FirstCr(t)
    case None => NoLine
    case Some(e) => Line(t[..e], t[e + 1..])
  }

  /** The lines of a stream in which no prompt is expected. */
  function Lines(s: string): seq<string>
    decreases |s|
  {
    match CutLine(s)
    case NoLine => []
    case Line(line, tail) => [line] + Lines(tail)
  }

  /** What is left behind the last complete line. */
  function Rest(s: string): string
    decreases |s|
  {
    match CutLine(s)
    case NoLine => s
    case Line(_, tail) => Rest(tail)
  }

  predicate StartsPrompt(s: string) {
    PROMPT <= s[Blank(s)..]
  }

  /** No line of the stream, complete or not, starts like a prompt. */
  predicate PromptFree(s: string)
    decreases |s|
  {
    && !StartsPrompt(s)
    && match CutLine(s)
       case NoLine => true
       case Line(_, tail) => PromptFree(tail)
  }

  /** The first line of a stream, and everything behind it. */
  lemma LinesStep(s: string, line: string, tail: string)
    requires CutLine(s) == Line(line, tail)
    ensures Lines(s) == [line] + Lines(tail) && Rest(s) == Rest(tail)
    ensures PromptFree(s) <==> !StartsPrompt(s) && PromptFree(tail)
  {
    hide CutLine, StartsPrompt;
  }

  /** Behind blank octets there is a prompt and nothing else. */
  predicate BarePrompt(s: string) {
    s[Blank(s)..] == PROMPT
  }

  /** The scan of these octets meets no prompt: none at the end, and none that a NUL ends. */
  predicate Quiet(s: string)
    decreases |s|
  {
    && !AtPrompt(s[Blank(s)..])
    && match CutLine(s)
       case NoLine => true
       case Line(_, tail) => Quiet(tail)
  }

  /** The scan of these octets comes to a bare prompt at their end. */
  predicate EndsInPrompt(s: string)
    decreases |s|
  {
    || BarePrompt(s)
    || (!AtPrompt(s[Blank(s)..]) && CutLine(s).Line? && EndsInPrompt(CutLine(s).tail))
  }

  lemma {:induction false} BlankExtends(a: string, b: string)
    requires Blank(a) < |a|
    ensures Blank(a + b) == Blank(a)
    ensures (a + b)[Blank(a)..] == a[Blank(a)..] + b
  {
    assert (a + b)[0] == a[0];
    if IsEol(a[0]) {
      assert (a + b)[1..] == a[1..] + b;
      BlankExtends(a[1..], b);
    }
  }

  lemma {:induction false} FirstCrExtends(a: string, b: string)
    requires FirstCr(a).Some?
    ensures FirstCr(a + b) == FirstCr(a)
  {
    assert (a + b)[0] == a[0];
    if a[0] != CR {
      assert (a + b)[1..] == a[1..] + b;
      FirstCrExtends(a[1..], b);
    }
  }

  lemma CutLineAt(s: string, k: nat, e: nat)
    requires k == Blank(s) && FirstCr(s[k..]) == Some(e)
    ensures CutLine(s) == Line(s[k..][..e], s[k..][e + 1..])
  {
    hide Blank, FirstCr;
  }

  lemma AppendBehind(t: string, b: string, e: nat)
    requires e < |t|
    ensures (t + b)[..e] == t[..e] && (t + b)[e + 1..] == t[e + 1..] + b
  {
  }

  lemma CutLineExtends(a: string, b: string)
    requires CutLine(a).Line?
    ensures CutLine(a + b) == Line(CutLine(a).line, CutLine(a).tail + b)
  {
    var k, t := Blank(a), a[Blank(a)..];
    assert k < |a| && FirstCr(t).Some?;
    var e := FirstCr(t).value;
    hide *;
    CutLineAt(a, k, e);
    BlankExtends(a, b);
    FirstCrExtends(t, b);
    AppendBehind(t, b, e);
    CutLineAt(a + b, k, e);
  }

  lemma StartsPromptExtends(a: string, b: string)
    requires StartsPrompt(a)
    ensures StartsPrompt(a + b)
  {
    BlankExtends(a, b);
    var t := a[Blank(a)..];
    assert t + b == PROMPT + (t[2..] + b);
  }

  /** Cutting a stream anywhere: the rest of the first part is carried into the second. */
  lemma {:induction false} LinesSplit(a: string, b: string)
    ensures Lines(a + b) == Lines(a) + Lines(Rest(a) + b)
    ensures Rest(a + b) == Rest(Rest(a) + b)
    decreases |a|
  {
    hide CutLine;
    match CutLine(a)
    case NoLine =>
    case Line(line, tail) =>
      CutLineExtends(a, b);
      LinesSplit(tail, b);
  }

  lemma {:induction false} PromptFreeSplit(a: string, b: string)
    requires PromptFree(a + b)
    ensures PromptFree(a) && PromptFree(Rest(a) + b)
    decreases |a|
  {
    hide CutLine, StartsPrompt;
    if StartsPrompt(a) {
      StartsPromptExtends(a, b);
    }
    match CutLine(a)
    case NoLine =>
    case Line(line, tail) =>
      CutLineExtends(a, b);
      PromptFreeSplit(tail, b);
  }

  function Concat(data: seq<string>): string {
    if data == [] then "" else data[0] + Concat(data[1..])
  }

  /** One call per chunk; what a finished request leaves unread waits for the next call. */
  function FeedAll(st: State, data: seq<string>): State
    decreases |data|
  {
    if data == [] then st else FeedAll(Receive(st, data[0]).state, data[1..])
  }

  function AsUnsolicited(lines: seq<string>): seq<Output> {
    seq(|lines|, i requires 0 <= i < |lines| => Unsolicited(lines[i]))
  }

  /** No call, with what was left unread before it, meets a prompt. */
  predicate QuietCalls(u: string, data: seq<string>)
    decreases |data|
  {
    data == [] || (Quiet(u + data[0]) && QuietCalls(Rest(u + data[0]), data[1..]))
  }

  // ---------------------------------------------------------------------------------------
  // No request outstanding.
  // ---------------------------------------------------------------------------------------

  lemma NextIsCr(s: string)
    requires !AtPrompt(s[Blank(s)..])
    ensures NextLine(s) == match FirstCr(s[Blank(s)..])
      case None => None
      case Some(e) => Some(Span(Blank(s), Blank(s) + e))
  {
    hide AtPrompt, Blank, FirstCr;
  }

  lemma SliceOfRest(s: string, k: nat, e: nat)
    requires k <= |s| && e < |s[k..]|
    ensures s[k..k + e] == s[k..][..e] && s[k + e + 1..] == s[k..][e + 1..]
  {
  }

  /** Where the line stands that is cut off a stream. */
  lemma CutSpan(s: string, k: nat, e: nat)
    requires k == Blank(s) && FirstCr(s[k..]) == Some(e)
    ensures CutLine(s).Line? && k + e < |s|
    ensures s[k..k + e] == CutLine(s).line && s[k + e + 1..] == CutLine(s).tail
  {
    hide Blank, FirstCr;
    SliceOfRest(s, k, e);
  }

  lemma DispatchLeaves(st: State, line: string)
    ensures Dispatch(st, line).unread == st.unread
  {
  }

  /** One turn of the engine on a stream that does not start with a prompt. */
  lemma TurnOnLine(st: State)
    requires !AtPrompt(st.unread[Blank(st.unread)..])
    ensures match CutLine(st.unread)
      case NoLine => TakeTurn(st) == Stop(st, false)
      case Line(line, tail) =>
        if IsAnswerable(st, line) then
          var log := st.log + [SendNext(st.req.value.nextSend.value)];
          TakeTurn(st) == Stop(st.(unread := [NUL] + tail, log := log), false)
        else
          var next := Dispatch(st, line).(unread := tail);
          TakeTurn(st) == if IsFinal(st, line) then Stop(next, true) else More(next)
  {
    hide AtPrompt, CheckFinal, Joins, Blank, FirstCr, Dispatch, IsAnswerable, IsFinal;
    var s, k := st.unread, Blank(st.unread);
    NextIsCr(s);
    match FirstCr(s[k..])
    case None =>
    case Some(e) =>
      CutSpan(s, k, e);
      DispatchLeaves(st, s[k..k + e]);
      hide CutLine, NextLine;
  }

  lemma {:induction false} ScanIdle(st: State)
    requires st.req.None? && Quiet(st.unread)
    ensures Scan(st) == Stop(st.(unread := Rest(st.unread), log := st.log + AsUnsolicited(Lines(st.unread))), false)
    decreases |st.unread|
  {
    hide CutLine, AtPrompt, TakeTurn;
    TurnOnLine(st);
    match CutLine(st.unread)
    case NoLine =>
      assert st.log + AsUnsolicited([]) == st.log;
    case Line(line, tail) =>
      var next := st.(log := st.log + [Unsolicited(line)], unread := tail);
      ScanIdle(next);
      assert next.log + AsUnsolicited(Lines(tail)) == st.log + AsUnsolicited([line] + Lines(tail));
  }

  /**
    With no request outstanding, and however the stream is cut into calls of which none meets a
    prompt, the output is the lines of the stream, each once and in order.
   */
  lemma {:induction false} FeedIdle(st: State, data: seq<string>)
    requires st.req.None? && QuietCalls(st.unread, data)
    requires Rest(st.unread) == st.unread && Lines(st.unread) == []
    ensures var all := st.unread + Concat(data);
      FeedAll(st, data) == st.(unread := Rest(all), log := st.log + AsUnsolicited(Lines(all)))
    decreases |data|
  {
    hide Scan, Quiet, Lines, Rest;
    var all := st.unread + Concat(data);
    if data == [] {
      assert all == st.unread;
      assert st.log + AsUnsolicited([]) == st.log;
    } else {
      var first := st.unread + data[0];
      assert all == first + Concat(data[1..]);
      LinesSplit(first, Concat(data[1..]));
      ScanIdle(st.(unread := first));
      var next := Receive(st, data[0]).state;
      RestSettled(first);
      FeedIdle(next, data[1..]);
      assert next.log + AsUnsolicited(Lines(Rest(first) + Concat(data[1..])))
        == st.log + AsUnsolicited(Lines(all));
    }
  }

  lemma {:induction false} RestSettled(s: string)
    ensures Rest(Rest(s)) == Rest(s) && Lines(Rest(s)) == []
    decreases |s|
  {
    match CutLine(s)
    case NoLine =>
    case Line(_, tail) => RestSettled(tail);
  }

  // ---------------------------------------------------------------------------------------
  // Prompts: which calls overrun, and which streams are safe under every cut.
  // ---------------------------------------------------------------------------------------

  /** The read position overruns exactly when a prompt ends the data and nothing answers it. */
  lemma OverrunExactlyAtBarePrompt(st: State)
    requires !st.overrun
    ensures TakeTurn(st).state.overrun
      <==> BarePrompt(st.unread) && (st.req.None? || st.req.value.nextSend.None?)
  {
    hide CheckFinal, Joins, Blank, FirstCr;
    var k := Blank(st.unread);
    var t := st.unread[k..];
    FinalIsNoPrompt();
    EolAtEnd(t);
    if t == PROMPT {
      assert st.unread[k..k + 2] == PROMPT;
    }
  }

  /** Only a prompt ends where the data ends; a CR is followed by nothing at the least. */
  lemma EolAtEnd(t: string)
    ensures FindEol(t) == Some(|t|) <==> t == PROMPT
    ensures FindEol(t).Some? ==> FindEol(t).value <= |t|
  {
  }

  lemma FinalIsNoPrompt()
    ensures CheckFinal(PROMPT) == 0
  {
    assert PROMPT[0] == '>';
    assert "OK"[0] == 'O' && "ERROR"[0] == 'E' && "NO ANSWER"[0] == 'N' && "NO DIALTONE"[0] == 'N';
    assert "+CMS ERROR:"[0] == '+' && "+CME ERROR:"[0] == '+';
  }

  lemma {:induction false} ScanOverruns(st: State)
    requires st.req.None? && EndsInPrompt(st.unread)
    ensures Scan(st).state.overrun
    decreases |st.unread|
  {
    hide CutLine, AtPrompt, TakeTurn, BarePrompt;
    if st.overrun {
      OverrunForever(st);
    } else if BarePrompt(st.unread) {
      OverrunExactlyAtBarePrompt(st);
      BareTurns(st);
      if TakeTurn(st).More? {
        OverrunForever(TakeTurn(st).state);
      }
    } else {
      TurnOnLine(st);
      ScanOverruns(TakeTurn(st).state);
    }
  }

  lemma BareTurns(st: State)
    ensures TakeTurn(st).Stop? ==> Scan(st) == TakeTurn(st)
    ensures TakeTurn(st).More? ==> Scan(st) == Scan(TakeTurn(st).state)
  {
    hide TakeTurn;
  }

  lemma {:induction false} FeedOverrun(st: State, data: seq<string>)
    requires st.overrun
    ensures FeedAll(st, data).overrun
    decreases |data|
  {
    hide Scan;
    if data == [] {
    } else {
      OverrunForever(st.(unread := st.unread + data[0]));
      FeedOverrun(Receive(st, data[0]).state, data[1..]);
    }
  }

  /** Without NUL octets a call meets a prompt only at its end. */
  lemma {:induction false} NulFreeQuiet(s: string)
    requires NUL !in s
    ensures Quiet(s) <==> !BarePrompt(Rest(s))
    ensures EndsInPrompt(s) <==> BarePrompt(Rest(s))
    ensures NUL !in Rest(s)
    decreases |s|
  {
    var t := s[Blank(s)..];
    assert AtPrompt(t) <==> t == PROMPT by {
      assert |t| > 2 ==> t[2] in s;
    }
    hide AtPrompt, Blank;
    match CutLine(s)
    case NoLine =>
    case Line(_, tail) =>
      BareHasNoLine(s);
      NulFreeQuiet(tail);
  }

  lemma BareHasNoLine(s: string)
    ensures BarePrompt(s) ==> CutLine(s) == NoLine
    ensures CutLine(s).Line? ==> forall c <- CutLine(s).tail :: c in s
  {
    if BarePrompt(s) {
      assert PROMPT[1..] == " " && PROMPT[1..][1..] == "";
    }
  }

  /** No call leaves a bare prompt unread. */
  predicate NoCallEndsInPrompt(u: string, data: seq<string>)
    decreases |data|
  {
    data == [] || (!BarePrompt(Rest(u + data[0])) && NoCallEndsInPrompt(Rest(u + data[0]), data[1..]))
  }

  /**
    On a stream without NUL octets the read position overruns exactly when a call leaves a bare
    prompt unread; when none does, the output is the lines of the stream.
   */
  lemma {:induction false} IdleExactly(st: State, data: seq<string>)
    requires st.req.None? && !st.overrun && NUL !in st.unread + Concat(data)
    requires Rest(st.unread) == st.unread && Lines(st.unread) == []
    ensures FeedAll(st, data).overrun <==> !NoCallEndsInPrompt(st.unread, data)
    ensures NoCallEndsInPrompt(st.unread, data) <==> QuietCalls(st.unread, data)
    ensures var all := st.unread + Concat(data);
      NoCallEndsInPrompt(st.unread, data) ==>
        FeedAll(st, data) == st.(unread := Rest(all), log := st.log + AsUnsolicited(Lines(all)))
    decreases |data|
  {
    hide Scan, Quiet, Lines, Rest, BarePrompt, EndsInPrompt;
    if data == [] {
      FeedIdle(st, data);
    } else {
      var first := st.unread + data[0];
      assert forall c <- first :: c in st.unread + Concat(data);
      NulFreeQuiet(first);
      if EndsInPrompt(first) {
        ScanOverruns(st.(unread := first));
        FeedOverrun(Receive(st, data[0]).state, data[1..]);
      } else {
        ScanIdle(st.(unread := first));
        RestSettled(first);
        var next := Receive(st, data[0]).state;
        assert forall c <- next.unread + Concat(data[1..]) :: c in Rest(first) || c in st.unread + Concat(data);
        IdleExactly(next, data[1..]);
        if NoCallEndsInPrompt(st.unread, data) {
          FeedIdle(st, data);
        }
      }
    }
  }

  lemma {:induction false} PromptFreeIsQuiet(s: string)
    requires PromptFree(s)
    ensures Quiet(s)
    decreases |s|
  {
    match CutLine(s)
    case NoLine =>
    case Line(_, tail) => PromptFreeIsQuiet(tail);
  }

  lemma {:induction false} PromptFreeCalls(u: string, data: seq<string>)
    requires PromptFree(u + Concat(data))
    ensures QuietCalls(u, data)
    decreases |data|
  {
    hide PromptFree, Quiet, Rest;
    if data == [] {
    } else {
      var first, more := u + data[0], Concat(data[1..]);
      assert u + Concat(data) == first + more;
      PromptFreeSplit(first, more);
      PromptFreeIsQuiet(first);
      PromptFreeCalls(Rest(first), data[1..]);
    }
  }

  /** Where to cut a stream right behind its first prompt. */
  lemma {:induction false} FirstPromptCut(s: string) returns (n: nat)
    requires !PromptFree(s)
    ensures n <= |s| && EndsInPrompt(s[..n])
    decreases |s|
  {
    hide *;
    if StartsPrompt(s) {
      PromptPrefix(s);
      n := Blank(s) + 2;
      BareEnds(s[..n]);
    } else {
      NotPromptFree(s);
      CutLineShape(s);
      var tail := CutLine(s).tail;
      var h := |s| - |tail|;
      var m := FirstPromptCut(tail);
      n := h + m;
      assert s == s[..h] + tail;
      CutBehindLine(s, s[..h], tail, m);
    }
  }

  lemma NotPromptFree(s: string)
    requires !PromptFree(s) && !StartsPrompt(s)
    ensures CutLine(s).Line? && !PromptFree(CutLine(s).tail)
  {
  }

  lemma BareEnds(s: string)
    requires BarePrompt(s)
    ensures EndsInPrompt(s)
  {
  }

  lemma CutBehindLine(s: string, head: string, tail: string, m: nat)
    requires s == head + tail && m <= |tail| && EndsInPrompt(tail[..m])
    requires !StartsPrompt(s) && CutLine(head).Line? && CutLine(head).tail == ""
    ensures EndsInPrompt(s[..|head| + m])
  {
    hide CutLine, Blank, StartsPrompt, AtPrompt, BarePrompt;
    var front := s[..|head| + m];
    assert front == head + tail[..m] && "" + tail[..m] == tail[..m];
    CutLineExtends(head, tail[..m]);
    assert front + tail[m..] == s;
    if StartsPrompt(front) {
      StartsPromptExtends(front, tail[m..]);
    }
    NoPromptNow(front);
  }

  lemma NoPromptNow(s: string)
    ensures !StartsPrompt(s) ==> !AtPrompt(s[Blank(s)..])
  {
    hide Blank;
  }

  lemma PromptPrefix(s: string)
    requires StartsPrompt(s)
    ensures Blank(s) + 2 <= |s| && BarePrompt(s[..Blank(s) + 2])
  {
    var n := Blank(s) + 2;
    BlankOf(s, n);
    assert s[..n][Blank(s)..] == s[Blank(s)..][..2];
  }

  lemma {:induction false} BlankOf(s: string, n: nat)
    requires Blank(s) < n <= |s|
    ensures Blank(s[..n]) == Blank(s)
    decreases |s|
  {
    assert s[..n][0] == s[0];
    if IsEol(s[0]) {
      assert s[..n][1..] == s[1..][..n - 1];
      BlankOf(s[1..], n - 1);
    }
  }

  /** A line and what stands before it are found in the octets up to its CR. */
  lemma CutLineShape(s: string)
    requires CutLine(s).Line?
    ensures var tail := CutLine(s).tail;
      && |tail| < |s| && s[|s| - |tail|..] == tail
      && CutLine(s[..|s| - |tail|]) == Line(CutLine(s).line, "")
  {
    var k := Blank(s);
    var t := s[k..];
    var e := FirstCr(t).value;
    var h := k + e + 1;
    assert s[h..] == t[e + 1..];
    BlankOf(s, h);
    assert s[..h][k..] == t[..e + 1];
    FirstCrOf(t, e);
    assert t[..e + 1][..e] == t[..e];
  }

  lemma {:induction false} FirstCrOf(t: string, e: nat)
    requires FirstCr(t) == Some(e)
    ensures FirstCr(t[..e + 1]) == Some(e)
    decreases e
  {
    if e == 0 {
      assert t[..1][0] == t[0];
    } else {
      assert t[..e + 1][0] == t[0] && t[..e + 1][1..] == t[1..][..e];
      FirstCrOf(t[1..], e - 1);
    }
  }

  /**
    The streams that are safe under every cut: with no request outstanding, every way of cutting a
    stream into calls is free of an overrun exactly when none of its lines starts like a prompt.
   */
  lemma SafeUnderEveryCut(st: State, s: string)
    requires st.req.None? && !st.overrun && st.unread == ""
    ensures PromptFree(s) <==> forall data | Concat(data) == s :: !FeedAll(st, data).overrun
  {
    hide PromptFree, FeedAll, EndsInPrompt;
    if PromptFree(s) {
      forall data | Concat(data) == s
        ensures !FeedAll(st, data).overrun
      {
        assert "" + Concat(data) == s;
        PromptFreeCalls("", data);
        RestOfNothing();
        FeedIdle(st, data);
      }
    } else {
      var n := FirstPromptCut(s);
      var data := [s[..n], s[n..]];
      CutInTwo(st, s, n);
      assert Concat(data) == s && FeedAll(st, data).overrun;
    }
  }

  lemma RestOfNothing()
    ensures Rest("") == "" && Lines("") == []
  {
  }

  lemma CutInTwo(st: State, s: string, n: nat)
    requires st.req.None? && st.unread == "" && n <= |s| && EndsInPrompt(s[..n])
    ensures Concat([s[..n], s[n..]]) == s && FeedAll(st, [s[..n], s[n..]]).overrun
  {
    hide Scan, EndsInPrompt;
    var data := [s[..n], s[n..]];
    assert data[1..] == [s[n..]] && data[1..][1..] == [];
    assert Concat(data) == s[..n] + (s[n..] + Concat([]));
    assert s[..n] + (s[n..] + "") == s;
    assert "" + s[..n] == s[..n];
    ScanOverruns(st.(unread := s[..n]));
    FeedOverrun(Receive(st, data[0]).state, data[1..]);
  }

  /** The same octets, in one call or cut behind the prompt, lead to different states. */
  lemma PromptDependsOnCut(st: State)
    requires st.req.None? && st.unread == "" && !st.overrun
    ensures Receive(st, "> x\r") == Stop(st.(log := st.log + [Unsolicited("> x")]), false)
    ensures Receive(st, "> ").state.overrun
  {
    var s := "> x\r";
    assert "" + s == s && "" + PROMPT == PROMPT;
    PromptLineCut();
    hide *;
    OneUnsolicited();
    ScanIdle(st.(unread := s));
    ScanOverruns(st.(unread := PROMPT));
  }

  lemma OneUnsolicited()
    ensures AsUnsolicited(["> x"]) == [Unsolicited("> x")]
  {
  }

  lemma PromptLineCut()
    ensures Quiet("> x\r") && Lines("> x\r") == ["> x"] && Rest("> x\r") == ""
    ensures EndsInPrompt(PROMPT)
  {
    XLine();
    assert PROMPT[0..] == PROMPT;
    hide FirstCr;
    assert CutLine("") == NoLine;
  }

  lemma XLine()
    ensures CutLine("> x\r") == Line("> x", "") && !AtPrompt("> x\r"[Blank("> x\r")..])
  {
    var s := "> x\r";
    assert s[1..] == " x\r" && s[1..][1..] == "x\r" && s[1..][1..][1..] == "\r";
    assert FirstCr("\r") == Some(0);
    assert FirstCr(s) == Some(3);
    assert s[0..] == s && s[..3] == "> x" && s[3 + 1..] == "";
    CutLineAt(s, 0, 3);
  }

  // ---------------------------------------------------------------------------------------
  // Prompts that are answered.
  // ---------------------------------------------------------------------------------------

  /** What is left of an answered prompt. */
  lemma AnsweredLeft(st: State)
    requires st.req.Some? && st.req.value.nextSend.Some?
    requires var t := st.unread[Blank(st.unread)..];
      FindEol(t) == Some(2) && t[..2] == PROMPT
    ensures
      var k := Blank(st.unread);
      && TakeTurn(st).Stop?
      && if st.unread[k..] == PROMPT then TakeTurn(st).state.unread == ""
         else |st.unread| >= k + 3 && TakeTurn(st).state.unread == [NUL] + st.unread[k + 3..]
  {
    var k := Blank(st.unread);
    var t := st.unread[k..];
    assert |t| >= 2;
    hide CheckFinal, Joins, Blank, FindEol;
    assert st.unread[k..k + 2] == t[..2];
    if |t| == 2 {
      assert t == t[..2];
    }
  }

  /**
    A prompt that a waiting second part answers: no line is ever found again exactly when octets
    stand behind the prompt, for the one that ended it has become a NUL at the read position.
   */
  lemma AnsweredPromptStalls(st: State)
    requires st.req.Some? && st.req.value.nextSend.Some?
    requires var t := st.unread[Blank(st.unread)..];
      FindEol(t) == Some(2) && t[..2] == PROMPT
    ensures TakeTurn(st).Stop?
    ensures (forall data :: NextLine(TakeTurn(st).state.unread + data) == None)
      <==> st.unread[Blank(st.unread)..] != PROMPT
  {
    AnsweredLeft(st);
    hide CheckFinal, Joins, Blank, FindEol, TakeTurn, NextLine;
    var k := Blank(st.unread);
    var left := TakeTurn(st).state.unread;
    if st.unread[k..] == PROMPT {
      assert left == "" && "" + "x\r" == "x\r";
      OneLine();
      assert NextLine(left + "x\r") != None;
    } else {
      forall data
        ensures NextLine(left + data) == None
      {
        NulStalls(st.unread[k + 3..] + data);
        assert left + data == [NUL] + (st.unread[k + 3..] + data);
      }
    }
  }

  lemma OneLine()
    ensures NextLine("x\r") == Some(Span(0, 1))
  {
    var s := "x\r";
    assert s[0..] == s && s[1..] == "\r" && FirstCr("\r") == Some(0);
  }

  lemma NulStalls(data: string)
    ensures NextLine([NUL] + data) == None
  {
    var u := [NUL] + data;
    assert u[0] == NUL && u[0..] == u;
  }

  /**
    A prompt is found as soon as its two characters are there, with nothing or a NUL behind them; with
    anything else behind them it is the beginning of an ordinary line.
   */
  lemma PromptFound(more: string)
    ensures NextLine("> " + more) ==
      if more == "" || more[0] == '\0' then Some(Span(0, 2))
      else
        match FirstCr("> " + more)
        case None => None
        case Some(e) => Some(Span(0, e))
  {
    hide FirstCr;
    var s := "> " + more;
    assert s[0] == '>' && s[1] == ' ' && s[0..] == s && s[..2] == "> ";
    assert more != "" ==> s[2] == more[0];
  }

  /** The shortest such stream: a prompt line ended by a CR. */
  lemma AnsweredPromptLineStalls(st: State, data: string)
    requires st.req.Some? && st.req.value.nextSend.Some? && st.unread == ""
    ensures
      var stuck := Receive(st, "> \r").state;
      && stuck == st.(unread := [NUL], log := st.log + [SendNext(st.req.value.nextSend.value)])
      && Receive(stuck, data) == Stop(stuck.(unread := [NUL] + data), false)
  {
    var stuck := st.(unread := [NUL], log := st.log + [SendNext(st.req.value.nextSend.value)]);
    assert "" + "> \r" == "> \r";
    AnsweredTurn(st.(unread := "> \r"));
    NulStalls(data);
    hide CheckFinal, Joins, NextLine, TakeTurn, Scan;
    BareTurns(st.(unread := "> \r"));
    BareTurns(stuck.(unread := [NUL] + data));
    StalledTurn(stuck.(unread := [NUL] + data));
  }

  lemma AnsweredTurn(st: State)
    requires st.req.Some? && st.req.value.nextSend.Some? && st.unread == "> \r"
    ensures TakeTurn(st) == Stop(st.(unread := [NUL], log := st.log + [SendNext(st.req.value.nextSend.value)]), false)
  {
    PromptLine();
    hide CheckFinal, Joins, NextLine;
    assert st.unread[0..2] == PROMPT && [NUL] + st.unread[2 + 1..] == [NUL];
  }

  lemma StalledTurn(st: State)
    requires NextLine(st.unread).None?
    ensures TakeTurn(st) == Stop(st, false)
  {
  }

  lemma PromptLine()
    ensures NextLine("> \r") == Some(Span(0, 2))
  {
    var s := "> \r";
    assert s[0..] == s && s[1..] == " \r" && s[1..][1..] == "\r";
    assert FirstCr("\r") == Some(0);
    assert FirstCr(" \r") == Some(1);
  }
}
