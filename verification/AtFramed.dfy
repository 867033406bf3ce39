/**
  The AT engine on text as modems send it, each line between two line ends: which lines come out, where
  they go by command type, and which of them end a response. All characters are written out.
 */
module AtFramed {
  import opened Wrappers
  import opened AtLines
  import opened AtStream
  import opened AtRouting

  // ---------------------------------------------------------------------------------------
  // Lines between carriage return and line feed.
  // ---------------------------------------------------------------------------------------

  predicate Text(l: string) {
    l != "" && '\r' !in l && '\n' !in l && '\0' !in l
  }

  /** Every line between two pairs of carriage return and line feed. */
  function Framed(ls: seq<string>): string {
    if ls == [] then "" else "\r\n" + ls[0] + "\r\n" + Framed(ls[1..])
  }

  lemma {:induction false} BlankIs(pre: string, s: string)
    requires forall c <- pre :: c == '\r' || c == '\n'
    requires s != "" ==> s[0] != '\r' && s[0] != '\n'
    ensures Blank(pre + s) == |pre|
    decreases |pre|
  {
    if pre == "" {
      assert pre + s == s;
    } else {
      assert (pre + s)[0] == pre[0] && (pre + s)[1..] == pre[1..] + s;
      assert pre[0] in pre && forall c <- pre[1..] :: c in pre;
      BlankIs(pre[1..], s);
    }
  }

  lemma {:induction false} FirstCrIs(l: string, rest: string)
    requires '\r' !in l && '\0' !in l
    ensures FirstCr(l + "\r" + rest) == Some(|l|)
    decreases |l|
  {
    var s := l + "\r" + rest;
    if l == "" {
      assert s[0] == '\r';
    } else {
      assert s[0] == l[0] && s[1..] == l[1..] + "\r" + rest;
      FirstCrIs(l[1..], rest);
    }
  }

  lemma CutText(pre: string, l: string, rest: string)
    requires (forall c <- pre :: c == '\r' || c == '\n') && Text(l)
    ensures CutLine(pre + l + "\r" + rest) == Line(l, rest)
    ensures (pre + l + "\r" + rest)[Blank(pre + l + "\r" + rest)..] == l + "\r" + rest
  {
    var t := l + "\r" + rest;
    assert pre + l + "\r" + rest == pre + t;
    BlankIs(pre, t);
    FirstCrIs(l, rest);
    hide Blank, FirstCr;
    assert (pre + t)[|pre|..] == t && t[..|l|] == l && t[|l| + 1..] == rest;
    CutLineAt(pre + t, |pre|, |l|);
  }

  /** No line comes out empty, with a line end at its start, or with a carriage return or NUL in it. */
  lemma {:induction false} LinesAreText(s: string)
    ensures forall l <- Lines(s) :: l != "" && l[0] != '\r' && l[0] != '\n' && '\r' !in l && '\0' !in l
    decreases |s|
  {
    match CutLine(s)
    case NoLine =>
    case Line(line, tail) =>
      LineIsText(s);
      hide CutLine;
      LinesAreText(tail);
  }

  lemma LineIsText(s: string)
    requires CutLine(s).Line?
    ensures
      var l := CutLine(s).line;
      l != "" && l[0] != '\r' && l[0] != '\n' && '\r' !in l && '\0' !in l
  {
    var t := s[Blank(s)..];
    var e := FirstCr(t).value;
    assert t[0] == s[Blank(s)];
    assert e != 0;
    assert t[..e][0] == t[0];
  }

  /** Ordinary text: no line looks like the beginning of a prompt. */
  predicate Ordinary(l: string) {
    Text(l) && !(|l| >= 2 && l[0] == '>' && l[1] == ' ')
  }

  lemma TextStartsNoPrompt(pre: string, l: string, rest: string)
    requires (forall c <- pre :: c == '\r' || c == '\n') && Ordinary(l)
    ensures !StartsPrompt(pre + l + "\r" + rest)
  {
    CutText(pre, l, rest);
    hide Blank;
    var t := l + "\r" + rest;
    assert t[0] == l[0] && t[1] == if |l| >= 2 then l[1] else '\r';
  }

  /** The first line behind line ends, and a line feed and more behind it. */
  lemma FirstText(pre: string, l: string, more: string)
    requires (pre == "" || pre == "\n") && Text(l)
    ensures
      var u := pre + ("\r\n" + l + "\r\n" + more);
      CutLine(u) == Line(l, "\n" + more) && (Ordinary(l) ==> !StartsPrompt(u))
  {
    assert pre + ("\r\n" + l + "\r\n" + more) == (pre + "\r\n") + l + "\r" + ("\n" + more);
    hide CutLine, StartsPrompt;
    CutText(pre + "\r\n", l, "\n" + more);
    if Ordinary(l) {
      TextStartsNoPrompt(pre + "\r\n", l, "\n" + more);
    }
  }

  lemma FramedStep(pre: string, ls: seq<string>)
    requires (pre == "" || pre == "\n") && ls != [] && Text(ls[0])
    ensures CutLine(pre + Framed(ls)) == Line(ls[0], "\n" + Framed(ls[1..]))
    ensures Ordinary(ls[0]) ==> !StartsPrompt(pre + Framed(ls))
  {
    hide CutLine, StartsPrompt;
    FirstText(pre, ls[0], Framed(ls[1..]));
  }

  lemma FramedNothing(pre: string)
    requires pre == "" || pre == "\n"
    ensures pre + Framed([]) == pre && Lines(pre) == [] && Rest(pre) == pre && PromptFree(pre)
  {
    OnlyLineFeed(pre);
    NoPromptInLineFeed(pre);
  }

  lemma {:induction false} FramedFrom(pre: string, ls: seq<string>)
    requires pre == "" || pre == "\n"
    requires forall l <- ls :: Text(l)
    ensures Lines(pre + Framed(ls)) == ls
    ensures Rest(pre + Framed(ls)) == if ls == [] then pre else "\n"
    ensures (forall l <- ls :: Ordinary(l)) ==> PromptFree(pre + Framed(ls))
    decreases |ls|
  {
    hide *;
    if ls == [] {
      FramedNothing(pre);
    } else {
      assert ls[0] in ls && forall l <- ls[1..] :: l in ls;
      FramedStep(pre, ls);
      LinesStep(pre + Framed(ls), ls[0], "\n" + Framed(ls[1..]));
      FramedFrom("\n", ls[1..]);
      assert [ls[0]] + ls[1..] == ls;
    }
  }

  lemma OnlyLineFeed(s: string)
    requires s == "" || s == "\n"
    ensures Lines(s) == [] && Rest(s) == s
  {
    if s == "\n" {
      assert s[1..] == "";
    }
  }

  /** The lines between line ends are the lines of the stream, and a line feed is left. */
  lemma FramedLines(ls: seq<string>)
    requires forall l <- ls :: Text(l)
    ensures Lines(Framed(ls)) == ls
    ensures Rest(Framed(ls)) == if ls == [] then "" else "\n"
  {
    FramedFrom("", ls);
    assert "" + Framed(ls) == Framed(ls);
  }

  lemma NoPromptInLineFeed(s: string)
    requires s == "" || s == "\n"
    ensures PromptFree(s)
  {
    if s == "\n" {
      assert s[1..] == "";
    }
  }

  lemma OrdinaryIsText(ls: seq<string>)
    requires forall l <- ls :: Ordinary(l)
    ensures forall l <- ls :: Text(l)
  {
  }

  /** With no request outstanding, text under any cutting into calls comes out line by line, and a line feed is left. */
  lemma IdleText(at: State, ls: seq<string>, data: seq<string>)
    requires at.req.None? && at.unread == "" && Concat(data) == Framed(ls)
    requires forall l <- ls :: Ordinary(l)
    ensures FeedAll(at, data)
      == at.(unread := if ls == [] then "" else "\n",
             log := at.log + seq(|ls|, i requires 0 <= i < |ls| => Unsolicited(ls[i])))
  {
    OrdinaryIsText(ls);
    hide Lines, Rest, PromptFree, FeedAll, QuietCalls, Text, Ordinary;
    FramedFrom("", ls);
    assert "" + Concat(data) == Framed(ls) == "" + Framed(ls);
    PromptFreeCalls("", data);
    RestOfNothing();
    FeedIdle(at, data);
  }

  // ---------------------------------------------------------------------------------------
  // Which lines a command takes.
  // ---------------------------------------------------------------------------------------

  /** Without a prefix every line is wanted, with one those that start with it; digits for a numeric command. */
  predicate Wanted(r: Request, l: string) {
    if r.commandType == Numeric then l != "" && l[0] in "0123456789"
    else
      match r.prefix
      case None => true
      case Some(p) => |l| >= |p| && l[..|p|] == p
  }

  function WantedOnly(r: Request, ls: seq<string>): seq<string> {
    if ls == [] then [] else (if Wanted(r, ls[0]) then [ls[0]] else []) + WantedOnly(r, ls[1..])
  }

  function FromFirstWanted(r: Request, ls: seq<string>): seq<string> {
    if ls == [] || Wanted(r, ls[0]) then ls else FromFirstWanted(r, ls[1..])
  }

  /** What the response holds: nothing, the first line wanted, all of them, or everything from the first one on. */
  function Share(r: Request, ls: seq<string>): seq<string> {
    match r.commandType
    case NoResult => []
    case MultiLine => WantedOnly(r, ls)
    case Pdu => FromFirstWanted(r, ls)
    case _ =>
      var all := WantedOnly(r, ls);
      if all == [] then [] else [all[0]]
  }

  lemma WantedIsAccepted(r: Request, l: string)
    requires r.commandType != NoResult
    ensures Wanted(r, l) <==> Accepts(r, l)
  {
    if r.commandType == Numeric && l != "" && '0' <= l[0] <= '9' {
      assert l[0] == "0123456789"[(l[0] - '0') as int];
    }
  }

  lemma {:induction false} WantedSnoc(r: Request, ls: seq<string>, l: string)
    ensures WantedOnly(r, ls + [l]) == WantedOnly(r, ls) + if Wanted(r, l) then [l] else []
    ensures FromFirstWanted(r, ls + [l]) ==
      if FromFirstWanted(r, ls) != [] || Wanted(r, l) then FromFirstWanted(r, ls) + [l] else []
    decreases |ls|
  {
    hide Wanted;
    if ls == [] {
      assert ls + [l] == [l] && [l][1..] == [];
    } else {
      assert (ls + [l])[0] == ls[0] && (ls + [l])[1..] == ls[1..] + [l];
      WantedSnoc(r, ls[1..], l);
    }
  }

  lemma {:induction false} WantedAny(r: Request, ls: seq<string>)
    ensures WantedOnly(r, ls) == [] <==> forall l <- ls :: !Wanted(r, l)
    ensures FromFirstWanted(r, ls) == [] <==> forall l <- ls :: !Wanted(r, l)
    decreases |ls|
  {
    hide Wanted;
    if ls == [] {
    } else {
      assert ls == [ls[0]] + ls[1..];
      WantedAny(r, ls[1..]);
    }
  }

  lemma TakenNow(r: Request, ls: seq<string>, l: string)
    ensures r.commandType == NoResult ==> !Taken(r, ls + [l], |ls|)
    ensures r.commandType == MultiLine ==> (Taken(r, ls + [l], |ls|) <==> Wanted(r, l))
    ensures r.commandType == Pdu ==> (Taken(r, ls + [l], |ls|) <==> FromFirstWanted(r, ls) != [] || Wanted(r, l))
    ensures r.commandType in {Numeric, SingleLine} ==>
      (Taken(r, ls + [l], |ls|) <==> WantedOnly(r, ls) == [] && Wanted(r, l))
  {
    var all := ls + [l];
    WantedAny(r, ls);
    if r.commandType != NoResult {
      forall i | 0 <= i < |all|
        ensures Accepts(r, all[i]) <==> Wanted(r, all[i])
      {
        WantedIsAccepted(r, all[i]);
      }
    }
    hide Accepts, Wanted, WantedOnly, FromFirstWanted;
    assert all[|ls|] == l && forall i :: 0 <= i < |ls| ==> all[i] == ls[i] && ls[i] in ls;
  }

  /** The lines a response takes, in terms of their characters. */
  lemma {:induction false} SharesAre(r: Request, ls: seq<string>)
    ensures TakenLines(r, ls) == Share(r, ls)
    decreases |ls|
  {
    if ls == [] {
    } else {
      var n := |ls| - 1;
      var front, l := ls[..n], ls[n];
      assert ls == front + [l];
      SharesAre(r, front);
      TakenNow(r, front, l);
      WantedSnoc(r, front, l);
      hide Taken, Wanted, WantedOnly, FromFirstWanted;
    }
  }

  function Unwanted(r: Request, ls: seq<string>): seq<string> {
    if ls == [] then [] else (if Wanted(r, ls[0]) then [] else [ls[0]]) + Unwanted(r, ls[1..])
  }

  /** All lines but the first one wanted. */
  function AllButFirstWanted(r: Request, ls: seq<string>): seq<string> {
    if ls == [] then [] else if Wanted(r, ls[0]) then ls[1..] else [ls[0]] + AllButFirstWanted(r, ls[1..])
  }

  function BeforeFirstWanted(r: Request, ls: seq<string>): seq<string> {
    if ls == [] || Wanted(r, ls[0]) then [] else [ls[0]] + BeforeFirstWanted(r, ls[1..])
  }

  /** What the response does not hold, in order. */
  function Remainder(r: Request, ls: seq<string>): seq<string> {
    match r.commandType
    case NoResult => ls
    case MultiLine => Unwanted(r, ls)
    case Pdu => BeforeFirstWanted(r, ls)
    case _ => AllButFirstWanted(r, ls)
  }

  lemma {:induction false} UnwantedSnoc(r: Request, ls: seq<string>, l: string)
    ensures Unwanted(r, ls + [l]) == Unwanted(r, ls) + if Wanted(r, l) then [] else [l]
    decreases |ls|
  {
    hide Wanted;
    if ls == [] {
      assert ls + [l] == [l] && [l][1..] == [];
    } else {
      assert (ls + [l])[0] == ls[0] && (ls + [l])[1..] == ls[1..] + [l];
      UnwantedSnoc(r, ls[1..], l);
    }
  }

  lemma {:induction false} BeforeSnoc(r: Request, ls: seq<string>, l: string)
    ensures BeforeFirstWanted(r, ls + [l])
      == BeforeFirstWanted(r, ls) + if FromFirstWanted(r, ls) != [] || Wanted(r, l) then [] else [l]
    decreases |ls|
  {
    hide Wanted;
    if ls == [] {
      assert ls + [l] == [l] && [l][1..] == [];
    } else {
      assert (ls + [l])[0] == ls[0] && (ls + [l])[1..] == ls[1..] + [l];
      BeforeSnoc(r, ls[1..], l);
    }
  }

  lemma {:induction false} AllButFirstSnoc(r: Request, ls: seq<string>, l: string)
    ensures AllButFirstWanted(r, ls + [l])
      == AllButFirstWanted(r, ls) + if WantedOnly(r, ls) == [] && Wanted(r, l) then [] else [l]
    decreases |ls|
  {
    hide Wanted;
    if ls == [] {
      assert ls + [l] == [l] && [l][1..] == [];
    } else {
      assert (ls + [l])[0] == ls[0] && (ls + [l])[1..] == ls[1..] + [l];
      AllButFirstSnoc(r, ls[1..], l);
    }
  }

  /** The lines that are left, in terms of their characters. */
  lemma {:induction false} RemaindersAre(r: Request, ls: seq<string>)
    ensures OtherLines(r, ls) == Remainder(r, ls)
    decreases |ls|
  {
    if ls == [] {
    } else {
      var n := |ls| - 1;
      var front, l := ls[..n], ls[n];
      assert ls == front + [l];
      RemaindersAre(r, front);
      TakenNow(r, front, l);
      UnwantedSnoc(r, front, l);
      BeforeSnoc(r, front, l);
      AllButFirstSnoc(r, front, l);
      hide Taken, Wanted, WantedOnly, FromFirstWanted, Unwanted, BeforeFirstWanted, AllButFirstWanted;
    }
  }

  // ---------------------------------------------------------------------------------------
  // Which lines end a response.
  // ---------------------------------------------------------------------------------------

  predicate Succeeds(t: string) {
    |t| >= 2 && t[0] == 'O' && t[1] == 'K'
  }

  predicate Fails(t: string) {
    || "ERROR" <= t || "+CMS ERROR:" <= t || "+CME ERROR:" <= t
    || "NO ANSWER" <= t || "NO DIALTONE" <= t
  }

  /** A line that starts with OK ends the response well, one with an error code of the standard badly. */
  lemma FinalCodes(t: string)
    ensures CheckFinal(t) == 1 <==> Succeeds(t)
    ensures CheckFinal(t) == 2 <==> Fails(t)
    ensures CheckFinal(t) == 0 <==> !Succeeds(t) && !Fails(t)
  {
    assert "OK" <= t <==> Succeeds(t) by {
      assert "OK" == ['O', 'K'];
    }
    assert "ERROR"[0] == 'E' && "+CMS ERROR:"[0] == '+' && "+CME ERROR:"[0] == '+';
    assert "NO ANSWER"[0] == 'N' && "NO DIALTONE"[0] == 'N';
  }

  // ---------------------------------------------------------------------------------------
  // A whole response.
  // ---------------------------------------------------------------------------------------

  lemma {:induction false} PromptFreeIsSmooth(r: Request, u: string)
    requires PromptFree(u)
    ensures Smooth(r, u)
    decreases |u|
  {
    NoPromptNow(u);
    match CutLine(u)
    case NoLine =>
    case Line(line, tail) =>
      LineStarts(u);
      hide CutLine, StartsPrompt, AtPrompt, CheckFinal, Blank;
      PromptFreeIsSmooth(r, tail);
  }

  lemma LineStarts(u: string)
    requires CutLine(u).Line? && !StartsPrompt(u)
    ensures CutLine(u).line != PROMPT
  {
    var t := u[Blank(u)..];
    var e := FirstCr(t).value;
    assert t[..e] <= t;
  }

  lemma {:induction false} PromptFreeSmoothCalls(r: Request, u: string, early: seq<string>, more: string)
    requires PromptFree(u + Concat(early) + more) && Rest(u) == u
    ensures SmoothCalls(r, u, early) && Smooth(r, Rest(u + Concat(early)) + more)
    decreases |early|
  {
    hide PromptFree, Smooth, Rest;
    if early == [] {
      assert u + "" == u;
      PromptFreeIsSmooth(r, u + more);
    } else {
      var v, later := u + early[0], Concat(early[1..]);
      assert u + Concat(early) == v + later;
      assert u + Concat(early) + more == v + (later + more);
      PromptFreeSplit(v, later + more);
      PromptFreeIsSmooth(r, v);
      LinesSplit(v, later);
      RestSettled(v);
      assert Rest(v) + (later + more) == Rest(v) + later + more;
      PromptFreeSmoothCalls(r, Rest(v), early[1..], more);
    }
  }

  /** The text of a response that ends in the line t, without the line feed behind it. */
  function AnswerText(ls: seq<string>, t: string): string {
    if ls == [] then "\r\n" + t + "\r" else "\r\n" + ls[0] + "\r\n" + AnswerText(ls[1..], t)
  }

  lemma LastText(pre: string, t: string)
    requires (pre == "" || pre == "\n") && Ordinary(t)
    ensures
      var u := pre + ("\r\n" + t + "\r");
      Lines(u) == [t] && Rest(u) == "" && PromptFree(u)
  {
    var u := pre + ("\r\n" + t + "\r");
    assert u == (pre + "\r\n") + t + "\r" + "";
    CutText(pre + "\r\n", t, "");
    TextStartsNoPrompt(pre + "\r\n", t, "");
    RestOfNothing();
    NoPromptInLineFeed("");
    hide CutLine, StartsPrompt;
    assert [t] + [] == [t];
  }

  lemma AnswerStep(pre: string, ls: seq<string>, t: string)
    requires (pre == "" || pre == "\n") && ls != [] && Ordinary(ls[0])
    ensures CutLine(pre + AnswerText(ls, t)) == Line(ls[0], "\n" + AnswerText(ls[1..], t))
    ensures !StartsPrompt(pre + AnswerText(ls, t))
  {
    hide CutLine, StartsPrompt;
    FirstText(pre, ls[0], AnswerText(ls[1..], t));
  }

  lemma AnswerEnd(pre: string, ls: seq<string>, t: string)
    requires (pre == "" || pre == "\n") && ls == [] && Ordinary(t)
    ensures
      var u := pre + AnswerText(ls, t);
      Lines(u) == ls + [t] && Rest(u) == "" && PromptFree(u)
  {
    LastText(pre, t);
    hide Lines, Rest, PromptFree;
  }

  lemma {:induction false} AnswerFrom(pre: string, ls: seq<string>, t: string)
    requires (pre == "" || pre == "\n") && Ordinary(t) && forall l <- ls :: Ordinary(l)
    ensures
      var u := pre + AnswerText(ls, t);
      Lines(u) == ls + [t] && Rest(u) == "" && PromptFree(u)
    decreases |ls|
  {
    hide *;
    if ls == [] {
      AnswerEnd(pre, ls, t);
    } else {
      assert ls[0] in ls && forall l <- ls[1..] :: l in ls;
      AnswerStep(pre, ls, t);
      LinesStep(pre + AnswerText(ls, t), ls[0], "\n" + AnswerText(ls[1..], t));
      AnswerFrom("\n", ls[1..], t);
      assert [ls[0]] + (ls[1..] + [t]) == ls + [t];
    }
  }

  lemma AnswerNotYet(early: seq<string>, last: string, ls: seq<string>, t: string)
    requires Concat(early) + last == AnswerText(ls, t) && last != "" && Ordinary(t)
    requires forall l <- ls :: Ordinary(l) && !Succeeds(l) && !Fails(l)
    ensures FirstFinal(Lines(Concat(early))).None?
  {
    AnswerFrom("", ls, t);
    assert "" + AnswerText(ls, t) == AnswerText(ls, t);
    LinesSplit(Concat(early), last);
    EndsInLine(Concat(early), last, ls + [t]);
    hide Lines, Rest, PromptFree, AnswerText;
    var some := Lines(Concat(early));
    forall i | 0 <= i < |some|
      ensures CheckFinal(some[i]) == 0
    {
      assert some[i] == (ls + [t])[i] == ls[i];
      FinalCodes(ls[i]);
    }
  }

  /** The last octet is what completes the last line. */
  lemma EndsInLine(front: string, last: string, all: seq<string>)
    requires last != "" && Lines(front + last) == all && Rest(front + last) == ""
    ensures |Lines(front)| < |all|
  {
    LinesSplit(front, last);
    if Lines(Rest(front) + last) == [] {
      NothingCut(Rest(front) + last);
    }
  }

  lemma NothingCut(s: string)
    requires Lines(s) == []
    ensures Rest(s) == s
  {
  }

  /** The lines that a response leaves, each one unsolicited. */
  function Others(r: Request, ls: seq<string>): seq<Output> {
    var rest := Remainder(r, ls);
    seq(|rest|, i requires 0 <= i < |rest| => Unsolicited(rest[i]))
  }

  /**
    A request is outstanding, and text arrives in any number of calls of which the last brings the end of
    the line t, an OK or an error code of the standard, behind lines that are neither: the response is
    handed over with the lines that its command type takes, t as its end, and success for OK alone; all
    other lines were unsolicited, and nothing is left unread.
   */
  lemma ResponseText(st: State, r: Request, early: seq<string>, last: string, ls: seq<string>, t: string)
    requires st.req == Some(r) && st.lines == None && st.unread == ""
    requires Concat(early) + last == AnswerText(ls, t) && last != ""
    requires forall l <- ls :: Ordinary(l) && !Succeeds(l) && !Fails(l)
    requires Ordinary(t) && (Succeeds(t) || Fails(t))
    ensures Receive(FeedAll(st, early), last) == Stop(
      st.(unread := "", req := None, lines := None,
          log := st.log + Others(r, ls) + [Completed(Response(Share(r, ls), t, Succeeds(t)))]), true)
  {
    hide *;
    RestOfNothing();
    assert "" + Concat(early) == Concat(early) && "" + Concat(early) + last == AnswerText(ls, t);
    assert "" + AnswerText(ls, t) == AnswerText(ls, t);
    AnswerFrom("", ls, t);
    PromptFreeSmoothCalls(r, "", early, last);
    AnswerNotYet(early, last, ls, t);
    FinalOfAnswer(ls, t);
    RestIsBehind(AnswerText(ls, t));
    ResponseAcrossCalls(st, r, early, last);
    AnsweredIs(st, r, ls, t);
    assert (ls + [t])[..|ls|] == ls && (ls + [t])[|ls|] == t;
  }

  lemma {:induction false} FinalOfAnswer(ls: seq<string>, t: string)
    requires (forall l <- ls :: !Succeeds(l) && !Fails(l)) && (Succeeds(t) || Fails(t))
    ensures FirstFinal(ls + [t]) == Some(|ls|)
    decreases |ls|
  {
    FinalCodes(t);
    hide CheckFinal, Succeeds, Fails;
    if ls == [] {
      assert (ls + [t])[0] == t;
    } else {
      FinalCodes(ls[0]);
      assert (ls + [t])[0] == ls[0] && (ls + [t])[1..] == ls[1..] + [t];
      FinalOfAnswer(ls[1..], t);
    }
  }

  lemma AnsweredIs(st: State, r: Request, ls: seq<string>, t: string)
    ensures Answered(st, r, ls, t) == st.(req := None, lines := None,
      log := st.log + Others(r, ls) + [Completed(Response(Share(r, ls), t, Succeeds(t)))])
  {
    SharesAre(r, ls);
    RemaindersAre(r, ls);
    FinalCodes(t);
    hide Share, TakenLines, OtherLines, Remainder, CheckFinal, Succeeds;
  }
}
