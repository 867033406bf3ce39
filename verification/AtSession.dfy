/**
  The adapter's queue and the AT engine of one channel together: whole sessions of requests, idle
  sends and arriving octets.
 */
module AtSession {
  import opened Wrappers
  import opened AtLines
  import opened AtStream
  import opened AtRouting
  import opened AtPrompts
  import Queue = QueueOrder
  import Runs = HalRuns
  import Order = HalCorrelation

  /**
    A request and the lines of the stream that were taken for it, from one position to that of its final
    line. The lines before position arrived had arrived when the request was sent.
   */
  datatype Exchange = Exchange(request: Request, from: nat, arrived: nat, to: nat)

  /**
    The two objects, and the session's history: the requests made; the octets that arrived, except for
    prompts that were answered; how many of their lines were taken; where the request in progress began
    and how many lines had arrived by then; the requests whose second part was sent; and the exchanges
    that are complete.
   */
  datatype Session = Session(hal: Runs.State, at: State, asked: seq<Request>, stream: string,
                             taken: nat, since: nat, arrived: nat, prompted: seq<Request>, exchanges: seq<Exchange>)

  /** A request as the queue sees it and as the engine does. */
  datatype Asking = Asking(p: Queue.Pending, r: Request)

  /** Octets arrive in one call; if it completes a response, its callback makes the requests asks. */
  datatype Move = Ask(a: Asking) | Send | Arrive(data: string, asks: seq<Asking>)

  function Entries(asks: seq<Asking>): seq<Queue.Pending> {
    seq(|asks|, i requires 0 <= i < |asks| => asks[i].p)
  }

  function Texts(asks: seq<Asking>): seq<Request> {
    seq(|asks|, i requires 0 <= i < |asks| => asks[i].r)
  }

  function Start(): Session {
    Session(Runs.Initial(Runs.At), State("", false, None, None, []), [], "", 0, 0, 0, [], [])
  }

  /** The call comes to a prompt that the second part of the request in progress answers. */
  predicate Prompts(s: Session, data: string) {
    && s.at.req.Some? && s.at.req.value.nextSend.Some?
    && ComesToPrompt(s.at.req.value, s.at.unread + data)
  }

  /**
    Ordinary requests; an idle send when one is scheduled; octets in a call that meets no prompt, or that
    comes to one at its end which the request in progress answers.
   */
  predicate Enabled(s: Session, m: Move) {
    match m
    case Ask(a) => Order.OrdinaryRequest(a.p)
    case Send => s.hal.idles > 0
    case Arrive(data, asks) =>
      && (forall a <- asks :: Order.OrdinaryRequest(a.p))
      && if s.at.req.Some? then Smooth(s.at.req.value, s.at.unread + data) || Prompts(s, data)
         else Quiet(s.at.unread + data)
  }

  /** The request that the idle send has given to the engine, if it has. */
  function Given(s: Session, hal: Runs.State): Session {
    if hal.atReq == s.hal.atReq || hal.atReq.None? || hal.atReq.value >= |s.asked| then s.(hal := hal)
    else
      s.(hal := hal, at := s.at.(req := Some(s.asked[hal.atReq.value])),
         since := s.taken, arrived := |Lines(s.stream)|)
  }

  /** What a call that comes to a prompt leads to: the octets behind the last line were the prompt. */
  function Prompted(s: Session, data: string, at: State): Session
    requires s.at.req.Some?
  {
    s.(at := at, stream := Ended(s.stream + data), taken := s.taken + |Lines(s.at.unread + data)|,
       prompted := s.prompted + [s.at.req.value])
  }

  /** What any other call leads to: the lines taken, and the exchange it completes if it does. */
  function Arrived(s: Session, data: string, asks: seq<Asking>, turn: Turn): Session {
    var lines := Lines(s.at.unread + data);
    var f := if s.at.req.Some? then FirstFinal(lines) else None;
    var count := if f.Some? then f.value + 1 else |lines|;
    var t := s.(at := turn.state, stream := s.stream + data, taken := s.taken + count);
    if turn.More? || !turn.done || s.at.req.None? then t
    else
      var to := if count > 0 then s.taken + count - 1 else 0;
      t.(hal := Runs.FinalLine(s.hal, Entries(asks), Runs.Success),
         asked := s.asked + Texts(asks),
         exchanges := s.exchanges + [Exchange(s.at.req.value, s.since, s.arrived, to)])
  }

  function Do(s: Session, m: Move): Session
    requires Enabled(s, m)
  {
    match m
    case Ask(a) => s.(hal := Runs.Request(s.hal, a.p, Runs.Success), asked := s.asked + [a.r])
    case Send => Given(s, Runs.RunIdle(s.hal, Runs.Success))
    case Arrive(data, asks) =>
      if Prompts(s, data) then Prompted(s, data, Receive(s.at, data).state)
      else Arrived(s, data, asks, Receive(s.at, data))
  }

  predicate Goes(s: Session, moves: seq<Move>)
    decreases |moves|
  {
    moves == [] || (Enabled(s, moves[0]) && Goes(Do(s, moves[0]), moves[1..]))
  }

  function Go(s: Session, moves: seq<Move>): Session
    requires Goes(s, moves)
    decreases |moves|
  {
    if moves == [] then s else Go(Do(s, moves[0]), moves[1..])
  }

  // ---------------------------------------------------------------------------------------
  // What the engine has handed over.
  // ---------------------------------------------------------------------------------------

  function Responses(log: seq<Output>): seq<Response> {
    if log == [] then []
    else
      var n := |log| - 1;
      Responses(log[..n]) + match log[n] case Completed(r) => [r] case _ => []
  }

  lemma {:induction false} ResponsesAppend(a: seq<Output>, b: seq<Output>)
    ensures Responses(a + b) == Responses(a) + Responses(b)
    decreases |b|
  {
    if b == [] {
      assert a + b == a;
    } else {
      var n := |b| - 1;
      assert (a + b)[..|a| + n] == a + b[..n];
      ResponsesAppend(a, b[..n]);
    }
  }

  lemma {:induction false} NoResponses(lines: seq<string>)
    ensures Responses(AsUnsolicited(lines)) == []
    decreases |lines|
  {
    if lines == [] {
    } else {
      var n := |lines| - 1;
      assert AsUnsolicited(lines)[..n] == AsUnsolicited(lines[..n]);
      NoResponses(lines[..n]);
    }
  }

  /** The second parts that were sent. */
  function Sends(log: seq<Output>): seq<string> {
    if log == [] then []
    else
      var n := |log| - 1;
      Sends(log[..n]) + match log[n] case SendNext(data) => [data] case _ => []
  }

  lemma {:induction false} SendsAppend(a: seq<Output>, b: seq<Output>)
    ensures Sends(a + b) == Sends(a) + Sends(b)
    decreases |b|
  {
    if b == [] {
      assert a + b == a;
    } else {
      var n := |b| - 1;
      assert (a + b)[..|a| + n] == a + b[..n];
      SendsAppend(a, b[..n]);
    }
  }

  lemma {:induction false} NoSends(lines: seq<string>)
    ensures Sends(AsUnsolicited(lines)) == []
    decreases |lines|
  {
    if lines == [] {
    } else {
      var n := |lines| - 1;
      assert AsUnsolicited(lines)[..n] == AsUnsolicited(lines[..n]);
      NoSends(lines[..n]);
    }
  }

  /** Unsolicited lines are neither responses nor second parts. */
  lemma OnlyUnsolicited(log: seq<Output>, lines: seq<string>)
    ensures Responses(log + AsUnsolicited(lines)) == Responses(log)
    ensures Sends(log + AsUnsolicited(lines)) == Sends(log)
  {
    ResponsesAppend(log, AsUnsolicited(lines));
    NoResponses(lines);
    SendsAppend(log, AsUnsolicited(lines));
    NoSends(lines);
  }

  lemma OneMore(log: seq<Output>, lines: seq<string>, o: Output)
    ensures Responses(log + AsUnsolicited(lines) + [o])
      == Responses(log) + match o case Completed(r) => [r] case _ => []
    ensures Sends(log + AsUnsolicited(lines) + [o]) == Sends(log) + match o case SendNext(data) => [data] case _ => []
  {
    OnlyUnsolicited(log, lines);
    var before := log + AsUnsolicited(lines);
    assert (before + [o])[..|before|] == before;
  }

  /** The second parts of these requests. */
  function SecondParts(rs: seq<Request>): seq<string> {
    seq(|rs|, i requires 0 <= i < |rs| => if rs[i].nextSend.Some? then rs[i].nextSend.value else "")
  }

  // ---------------------------------------------------------------------------------------
  // Positions in the stream.
  // ---------------------------------------------------------------------------------------

  lemma {:induction false} BehindExtends(a: string, b: string, n: nat)
    requires n <= |Lines(a)|
    ensures n <= |Lines(a + b)| && Behind(a + b, n) == Behind(a, n) + b
    decreases n
  {
    hide CutLine, Blank, FirstCr;
    LinesSplit(a, b);
    if n == 0 {
    } else {
      CutLineExtends(a, b);
      BehindExtends(CutLine(a).tail, b, n - 1);
    }
  }

  lemma LinesExtend(a: string, b: string)
    ensures Lines(a) <= Lines(a + b)
  {
    LinesSplit(a, b);
  }

  lemma {:induction false} BehindBehind(s: string, n: nat, m: nat)
    requires n <= |Lines(s)| && m <= |Lines(Behind(s, n))|
    ensures n + m <= |Lines(s)| && Behind(Behind(s, n), m) == Behind(s, n + m)
    decreases n
  {
    hide CutLine, Blank, FirstCr;
    BehindLines(s, n);
    if n == 0 {
    } else {
      BehindBehind(CutLine(s).tail, n - 1, m);
    }
  }

  /** The lines at hand are the stream's from the position reached on. */
  lemma LinesAtHand(stream: string, taken: nat, data: string)
    requires taken <= |Lines(stream)|
    ensures taken <= |Lines(stream + data)|
    ensures
      var u := Behind(stream, taken) + data;
      Behind(stream + data, taken) == u && Lines(u) == Lines(stream + data)[taken..]
  {
    BehindExtends(stream, data, taken);
    BehindLines(stream + data, taken);
  }

  /** The octets up to the end of the last complete line. */
  function Ended(s: string): string
    decreases |s|
  {
    match CutLine(s)
    case NoLine => ""
    case Line(_, tail) => s[..|s| - |tail|] + Ended(tail)
  }

  lemma EndedIs(s: string, tail: string)
    requires CutLine(s).Line? && tail == CutLine(s).tail
    ensures |tail| < |s| && Ended(s) == s[..|s| - |tail|] + Ended(tail)
  {
    hide CutLine;
  }

  lemma EndedStep(s: string)
    requires CutLine(s).Line?
    ensures CutLine(Ended(s)) == Line(CutLine(s).line, Ended(CutLine(s).tail))
  {
    hide *;
    var tail := CutLine(s).tail;
    EndedIs(s, tail);
    CutLineShape(s);
    CutLineExtends(s[..|s| - |tail|], Ended(tail));
    assert "" + Ended(tail) == Ended(tail);
  }

  lemma EndedWithoutLine(s: string)
    requires CutLine(s).NoLine?
    ensures Ended(s) == ""
  {
    hide CutLine;
  }

  lemma {:induction false} EndedLines(s: string)
    ensures Lines(Ended(s)) == Lines(s) && Rest(Ended(s)) == ""
    decreases |s|
  {
    match CutLine(s)
    case NoLine =>
      EndedWithoutLine(s);
      RestOfNothing();
    case Line(line, tail) =>
      EndedStep(s);
      hide CutLine, Ended, Lines, Rest;
      LinesStep(s, line, tail);
      LinesStep(Ended(s), line, Ended(tail));
      EndedLines(tail);
  }

  // ---------------------------------------------------------------------------------------
  // The invariant.
  // ---------------------------------------------------------------------------------------

  /** The answer that an exchange ought to have: its request's share of its lines, and its final line. */
  function Due(e: Exchange, lines: seq<string>): Response
    requires e.from <= e.to < |lines|
  {
    Response(TakenLines(e.request, lines[e.from..e.to]), lines[e.to], CheckFinal(lines[e.to]) == 1)
  }

  /** The exchange ends at the first final line from its beginning on. */
  predicate Sound(e: Exchange, lines: seq<string>) {
    && e.from <= e.to < |lines|
    && CheckFinal(lines[e.to]) != 0
    && forall i :: e.from <= i < e.to ==> CheckFinal(lines[i]) == 0
  }

  /** The n-th exchange is the n-th request's, and its answer is the n-th given. */
  predicate Delivered(es: seq<Exchange>, asked: seq<Request>, rs: seq<Response>, lines: seq<string>) {
    && |es| == |rs| <= |asked|
    && (forall n :: 0 <= n < |es| ==>
         es[n].request == asked[n] && Sound(es[n], lines) && rs[n] == Due(es[n], lines))
    && (forall n :: 0 < n < |es| ==> es[n - 1].to < es[n].from)
  }

  /** The queue has answered as many requests as there are exchanges, and gave the engine the next one. */
  predicate Matched(hal: Runs.State, at: State, asked: seq<Request>, n: nat) {
    && Order.InOrder(hal)
    && |Order.AnsweredIds(hal.log)| == n <= |asked| == hal.nextId
    && (hal.atReq.None? <==> at.req.None?)
    && (at.req.Some? ==> n < |asked| && at.req.value == asked[n])
  }

  predicate Good(s: Session) {
    var lines := Lines(s.stream);
    && Matched(s.hal, s.at, s.asked, |s.exchanges|)
    && s.since <= s.taken <= |lines| && Behind(s.stream, s.taken) == s.at.unread
    && (s.exchanges == [] || s.exchanges[|s.exchanges| - 1].to < s.taken)
    && Delivered(s.exchanges, s.asked, Responses(s.at.log), lines)
    && Sends(s.at.log) == SecondParts(s.prompted)
    && (match s.at.req
        case None => s.at.lines == None
        case Some(r) =>
          && (s.exchanges == [] || s.exchanges[|s.exchanges| - 1].to < s.since)
          && InProgress(s.at, r, lines[s.since..s.taken])
          && forall i :: s.since <= i < s.taken ==> CheckFinal(lines[i]) == 0)
  }

  // ---------------------------------------------------------------------------------------
  // Requests and idle sends.
  // ---------------------------------------------------------------------------------------

  lemma AskGood(s: Session, a: Asking)
    requires Good(s) && Order.OrdinaryRequest(a.p)
    ensures Good(Do(s, Ask(a)))
  {
    hide Lines, Behind, Responses, InProgress, CheckFinal, Sound, Due;
    AskMatched(s.hal, s.at, s.asked, |s.exchanges|, a.p, a.r);
    hide Matched;
    var asked := s.asked + [a.r];
    assert forall n :: 0 <= n < |s.asked| ==> asked[n] == s.asked[n];
  }

  lemma AskMatched(hal: Runs.State, at: State, asked: seq<Request>, n: nat, p: Queue.Pending, r: Request)
    requires Matched(hal, at, asked, n) && Order.OrdinaryRequest(p)
    ensures Matched(Runs.Request(hal, p, Runs.Success), at, asked + [r], n)
    ensures n <= |asked|
  {
    Order.RequestInOrder(hal, p);
    Order.PushOrdinary(hal, p);
  }

  lemma SendMatched(s: Session)
    requires Matched(s.hal, s.at, s.asked, |s.exchanges|) && s.hal.idles > 0
    ensures
      var t := Do(s, Send);
      && Matched(t.hal, t.at, s.asked, |s.exchanges|)
      && (t == s.(hal := t.hal)
          || (s.at.req.None? && t.at == s.at.(req := t.at.req) && t.at.req.Some?
              && t == s.(hal := t.hal, at := t.at,
                         since := s.taken, arrived := |Lines(s.stream)|)))
  {
    var hal := Runs.RunIdle(s.hal, Runs.Success);
    var sent := Runs.IdleSend(s.hal, Runs.Success).state;
    Order.IdleSendInOrder(s.hal);
    Order.IdleSendKeepsHead(s.hal);
    SendGives(s.hal);
    hide Runs.IdleSend;
    assert hal == sent.(idles := hal.idles);
    SameOrder(sent, hal);
  }

  lemma SameOrder(a: Runs.State, b: Runs.State)
    requires Order.InOrder(a) && b == a.(idles := b.idles)
    ensures Order.InOrder(b)
  {
  }

  /** An idle send gives the engine nothing, or the next request when it holds none. */
  lemma SendGives(hal: Runs.State)
    requires Order.InOrder(hal)
    ensures
      var t := Runs.IdleSend(hal, Runs.Success);
      && !t.renew
      && (t.state.atReq == hal.atReq
          || (hal.atReq.None? && t.state.atReq == Some(|Order.AnsweredIds(hal.log)|)
              && |Order.AnsweredIds(hal.log)| < hal.nextId))
  {
    match Queue.NextPending(hal.queue)
    case None =>
    case Some(i) =>
      assert hal.queue[0] in hal.queue;
  }

  lemma GivenGood(s: Session, t: Session)
    requires Good(s) && s.at.req.None? && t.at == s.at.(req := t.at.req) && t.at.req.Some?
    requires t == s.(hal := t.hal, at := t.at, since := s.taken, arrived := t.arrived)
    requires Matched(t.hal, t.at, s.asked, |s.exchanges|)
    ensures Good(t)
  {
    hide Lines, Behind, Responses, Sends, CheckFinal, Matched, Delivered;
    assert Lines(s.stream)[s.taken..s.taken] == [];
  }

  lemma SendGood(s: Session)
    requires Good(s) && s.hal.idles > 0
    ensures Good(Do(s, Send))
  {
    SendMatched(s);
    var t := Do(s, Send);
    if t == s.(hal := t.hal) {
      hide Lines, Behind, Responses, Sends, CheckFinal, Matched, Delivered, Do, Runs.RunIdle, InProgress;
    } else {
      hide *;
      GivenGood(s, t);
    }
  }

  // ---------------------------------------------------------------------------------------
  // Arriving octets.
  // ---------------------------------------------------------------------------------------

  lemma DeliveredExtends(es: seq<Exchange>, asked: seq<Request>, rs: seq<Response>, a: seq<string>, b: seq<string>)
    requires Delivered(es, asked, rs, a) && a <= b
    ensures Delivered(es, asked, rs, b)
  {
    hide CheckFinal, TakenLines;
    forall n | 0 <= n < |es|
      ensures Sound(es[n], b) && rs[n] == Due(es[n], b)
    {
      var e := es[n];
      assert b[e.from..e.to] == a[e.from..e.to];
    }
  }

  lemma MatchedAt(hal: Runs.State, at: State, b: State, asked: seq<Request>, n: nat)
    requires Matched(hal, at, asked, n) && b.req == at.req
    ensures Matched(hal, b, asked, n)
  {
  }

  lemma ArriveIdle(s: Session, data: string, asks: seq<Asking>)
    requires Good(s) && s.at.req.None? && Enabled(s, Arrive(data, asks))
    ensures Good(Do(s, Arrive(data, asks)))
  {
    hide Quiet, Lines, Rest, Behind, Scan, CheckFinal, Matched, Delivered, InProgress;
    var u := s.at.unread + data;
    var stream := s.stream + data;
    ScanIdle(s.at.(unread := u));
    LinesAtHand(s.stream, s.taken, data);
    LinesExtend(s.stream, data);
    DeliveredExtends(s.exchanges, s.asked, Responses(s.at.log), Lines(s.stream), Lines(stream));
    OnlyUnsolicited(s.at.log, Lines(u));
    RestIsBehind(u);
    BehindBehind(stream, s.taken, |Lines(u)|);
    MatchedAt(s.hal, s.at, Do(s, Arrive(data, asks)).at, s.asked, |s.exchanges|);
  }

  lemma GoodShape(s: Session)
    requires Good(s)
    ensures s.since <= s.taken <= |Lines(s.stream)| && Behind(s.stream, s.taken) == s.at.unread
    ensures s.at.req.Some? ==> InProgress(s.at, s.at.req.value, Lines(s.stream)[s.since..s.taken])
  {
    hide Lines, Behind, InProgress, Delivered, Matched;
  }

  /** The lines at hand when a call brings data, and what was collected, as positions in the stream. */
  lemma AtHand(s: Session, r: Request, data: string)
    requires Good(s) && s.at.req == Some(r)
    ensures
      var lines := Lines(s.stream + data);
      && Lines(s.stream) <= lines && s.since <= s.taken <= |Lines(s.stream)|
      && Lines(s.at.unread + data) == lines[s.taken..]
      && Behind(s.stream + data, s.taken) == s.at.unread + data
      && InProgress(s.at, r, lines[s.since..s.taken])
  {
    hide *;
    GoodShape(s);
    LinesAtHand(s.stream, s.taken, data);
    LinesExtend(s.stream, data);
    assert Lines(s.stream + data)[s.since..s.taken] == Lines(s.stream)[s.since..s.taken];
  }

  lemma PromptHasNoFinal(s: Session, data: string)
    requires Prompts(s, data)
    ensures FirstFinal(Lines(s.at.unread + data)).None?
  {
    ScanAsked(s.at, s.at.req.value, [], s.at.unread + data);
  }

  lemma DoArrive(s: Session, data: string, asks: seq<Asking>)
    requires Enabled(s, Arrive(data, asks)) && s.at.req.Some?
    ensures
      var t := Do(s, Arrive(data, asks));
      if Prompts(s, data) then t == Prompted(s, data, Receive(s.at, data).state)
      else Smooth(s.at.req.value, s.at.unread + data) && t == Arrived(s, data, asks, Receive(s.at, data))
    ensures Receive(s.at, data) == Scan(s.at.(unread := s.at.unread + data))
  {
    hide Arrived, Prompted, Scan, Smooth, Quiet, ComesToPrompt;
  }

  lemma ArrivedMore(s: Session, data: string, asks: seq<Asking>, turn: Turn)
    requires turn.Stop? && !turn.done && s.at.req.Some? && FirstFinal(Lines(s.at.unread + data)).None?
    ensures Arrived(s, data, asks, turn)
      == s.(at := turn.state, stream := s.stream + data, taken := s.taken + |Lines(s.at.unread + data)|)
  {
    hide Lines, FirstFinal;
  }

  /** The call that neither completes the exchange nor comes to a prompt, as a session. */
  lemma DoBusy(s: Session, r: Request, data: string, asks: seq<Asking>)
    requires Good(s) && s.at.req == Some(r) && Enabled(s, Arrive(data, asks)) && !Prompts(s, data)
    requires FirstFinal(Lines(s.at.unread + data)).None?
    ensures
      var u, lines, t := s.at.unread + data, Lines(s.stream + data), Do(s, Arrive(data, asks));
      && s.taken + |Lines(u)| == |lines| && s.since <= |lines|
      && t == s.(at := t.at, stream := s.stream + data, taken := |lines|)
      && t.at.unread == Rest(u) && InProgress(t.at, r, lines[s.since..])
      && Responses(t.at.log) == Responses(s.at.log) && Sends(t.at.log) == Sends(s.at.log)
  {
    hide *;
    DoArrive(s, data, asks);
    AtHand(s, r, data);
    var u, lines, t := s.at.unread + data, Lines(s.stream + data), Scan(s.at.(unread := s.at.unread + data)).state;
    var seen := lines[s.since..s.taken];
    ScanOn(s.at, r, seen, u, t);
    ArrivedMore(s, data, asks, Scan(s.at.(unread := u)));
    OnlyUnsolicited(s.at.log, LaterOthers(r, seen, Lines(u)));
    assert seen + lines[s.taken..] == lines[s.since..];
  }

  lemma PromptedIs(s: Session, data: string, at: State)
    requires s.at.req.Some?
    ensures Prompted(s, data, at) == s.(at := at, stream := Ended(s.stream + data),
      taken := s.taken + |Lines(s.at.unread + data)|, prompted := s.prompted + [s.at.req.value])
  {
    hide Lines, Ended;
  }

  lemma PromptsSecond(s: Session, data: string)
    requires Prompts(s, data)
    ensures s.at.req.Some? && s.at.req.value.nextSend.Some? && ComesToPrompt(s.at.req.value, s.at.unread + data)
    ensures SecondParts(s.prompted + [s.at.req.value]) == SecondParts(s.prompted) + [s.at.req.value.nextSend.value]
  {
    hide ComesToPrompt;
  }

  /** The call that comes to a prompt, as a session. */
  lemma DoPrompt(s: Session, r: Request, data: string, asks: seq<Asking>)
    requires Good(s) && s.at.req == Some(r) && Enabled(s, Arrive(data, asks)) && Prompts(s, data)
    ensures
      var lines, t := Lines(s.stream + data), Do(s, Arrive(data, asks));
      && s.since <= s.taken <= |Lines(s.stream)| && Lines(s.stream) <= lines
      && t == s.(at := t.at, stream := Ended(s.stream + data), taken := |lines|, prompted := s.prompted + [r])
      && t.at.unread == "" && InProgress(t.at, r, lines[s.since..])
      && FirstFinal(lines[s.taken..]).None?
      && Responses(t.at.log) == Responses(s.at.log)
      && (Sends(s.at.log) == SecondParts(s.prompted) ==> Sends(t.at.log) == SecondParts(t.prompted))
  {
    hide *;
    DoArrive(s, data, asks);
    AtHand(s, r, data);
    PromptsSecond(s, data);
    var u, lines, t := s.at.unread + data, Lines(s.stream + data), Scan(s.at.(unread := s.at.unread + data)).state;
    var seen := lines[s.since..s.taken];
    ScanAsks(s.at, r, seen, u, t);
    PromptedIs(s, data, t);
    OneMore(s.at.log, LaterOthers(r, seen, Lines(u)), SendNext(r.nextSend.value));
    assert seen + lines[s.taken..] == lines[s.since..];
  }

  lemma NoFinalSince(a: seq<string>, b: seq<string>, since: nat, taken: nat)
    requires since <= taken <= |a| && a <= b
    requires forall i :: since <= i < taken ==> CheckFinal(a[i]) == 0
    requires FirstFinal(b[taken..]).None?
    ensures forall i :: since <= i < |b| ==> CheckFinal(b[i]) == 0
  {
    hide CheckFinal;
    assert forall i :: since <= i < taken ==> b[i] == a[i];
    assert forall i :: taken <= i < |b| ==> b[i] == b[taken..][i - taken];
  }

  lemma Progressing(at: State, r: Request, seen: seq<string>)
    requires InProgress(at, r, seen)
    ensures at.req == Some(r)
  {
  }

  /** What Good says while a request is in progress. */
  lemma GoodBusy(s: Session, r: Request)
    requires s.at.req == Some(r)
    ensures
      var lines := Lines(s.stream);
      Good(s) <==>
        && s.since <= s.taken <= |lines| && Behind(s.stream, s.taken) == s.at.unread
        && Matched(s.hal, s.at, s.asked, |s.exchanges|)
        && Delivered(s.exchanges, s.asked, Responses(s.at.log), lines)
        && Sends(s.at.log) == SecondParts(s.prompted)
        && (s.exchanges == [] || s.exchanges[|s.exchanges| - 1].to < s.since)
        && InProgress(s.at, r, lines[s.since..s.taken])
        && forall i :: s.since <= i < s.taken ==> CheckFinal(lines[i]) == 0
  {
    hide Lines, Behind, CheckFinal, Matched, Delivered, InProgress, Responses, Sends, SecondParts;
  }

  /** A call that leaves the request in progress: what has to hold behind it. */
  lemma StillInProgress(s: Session, r: Request, t: Session, lines: seq<string>)
    requires Good(s) && s.at.req == Some(r) && lines == Lines(t.stream) && Lines(s.stream) <= lines
    requires t == s.(at := t.at, stream := t.stream, taken := |lines|, prompted := t.prompted)
    requires Behind(t.stream, |lines|) == t.at.unread && s.since <= |lines|
    requires InProgress(t.at, r, lines[s.since..]) && FirstFinal(lines[s.taken..]).None?
    requires Responses(t.at.log) == Responses(s.at.log) && Sends(t.at.log) == SecondParts(t.prompted)
    ensures Good(t)
  {
    hide *;
    Progressing(t.at, r, lines[s.since..]);
    GoodBusy(s, r);
    GoodBusy(t, r);
    DeliveredExtends(s.exchanges, s.asked, Responses(s.at.log), Lines(s.stream), lines);
    MatchedAt(s.hal, s.at, t.at, s.asked, |s.exchanges|);
    NoFinalSince(Lines(s.stream), lines, s.since, s.taken);
    assert lines[s.since..|lines|] == lines[s.since..];
  }

  lemma GoodSends(s: Session)
    requires Good(s)
    ensures Sends(s.at.log) == SecondParts(s.prompted)
  {
    hide Lines, Behind, CheckFinal, Matched, Delivered, InProgress, Responses, Sends, SecondParts;
  }

  lemma ArriveBusy(s: Session, r: Request, data: string, asks: seq<Asking>)
    requires Good(s) && s.at.req == Some(r) && Enabled(s, Arrive(data, asks)) && !Prompts(s, data)
    requires FirstFinal(Lines(s.at.unread + data)).None?
    ensures Good(Do(s, Arrive(data, asks)))
  {
    hide *;
    DoBusy(s, r, data, asks);
    AtHand(s, r, data);
    GoodSends(s);
    var u, lines := s.at.unread + data, Lines(s.stream + data);
    RestIsBehind(u);
    BehindBehind(s.stream + data, s.taken, |Lines(u)|);
    StillInProgress(s, r, Do(s, Arrive(data, asks)), lines);
  }

  lemma ArrivePrompt(s: Session, r: Request, data: string, asks: seq<Asking>)
    requires Good(s) && s.at.req == Some(r) && Enabled(s, Arrive(data, asks)) && Prompts(s, data)
    ensures Good(Do(s, Arrive(data, asks)))
  {
    hide *;
    DoPrompt(s, r, data, asks);
    GoodSends(s);
    var t := Do(s, Arrive(data, asks));
    EndedLines(s.stream + data);
    RestIsBehind(t.stream);
    StillInProgress(s, r, t, Lines(t.stream));
  }

  /** The requests of a callback are numbered on, and nothing is sent. */
  lemma {:induction false} CallbackCounts(hal: Runs.State, ps: seq<Queue.Pending>)
    requires Order.InOrder(hal) && forall p <- ps :: Order.OrdinaryRequest(p)
    ensures
      var t := Runs.RequestAll(hal, ps, Runs.Success);
      t.nextId == hal.nextId + |ps| && t.log == hal.log && t.atReq == hal.atReq
    decreases |ps|
  {
    if ps == [] {
    } else {
      var next := Runs.Request(hal, ps[0], Runs.Success);
      Order.RequestInOrder(hal, ps[0]);
      Order.PushOrdinary(hal, ps[0]);
      hide Order.InOrder, Runs.Request, Order.OrdinaryRequest;
      CallbackCounts(next, ps[1..]);
    }
  }

  lemma FinalMatched(hal: Runs.State, at: State, b: State, asked: seq<Request>, n: nat, asks: seq<Asking>)
    requires Matched(hal, at, asked, n) && at.req.Some? && b.req.None?
    requires forall a <- asks :: Order.OrdinaryRequest(a.p)
    ensures Matched(Runs.FinalLine(hal, Entries(asks), Runs.Success), b, asked + Texts(asks), n + 1)
    ensures n < |asked| && at.req.value == asked[n]
  {
    var ps := Entries(asks);
    Order.FinalLineInOrder(hal, ps);
    Order.FinalLineInOrder(hal, []);
    Order.FinalLineAnswersInFlight(hal);
    Order.AnsweredIdsSnoc(hal.log, Runs.Answered(hal.queue[0]));
    var left := Queue.RemoveAt(hal.queue, 0);
    var s1 := hal.(atReq := None, queue := left, log := hal.log + [Runs.Answered(hal.queue[0])]);
    assert Order.InOrder(s1);
    CallbackCounts(s1, ps);
    hide Order.InOrder, Order.HeadInFlight, Order.AnsweredIds, Runs.RequestAll;
  }

  lemma DeliveredOneMore(es: seq<Exchange>, asked: seq<Request>, more: seq<Request>,
                         rs: seq<Response>, lines: seq<string>, e: Exchange)
    requires Delivered(es, asked, rs, lines) && |es| < |asked| && e.request == asked[|es|]
    requires Sound(e, lines) && (es == [] || es[|es| - 1].to < e.from)
    ensures Delivered(es + [e], asked + more, rs + [Due(e, lines)], lines)
  {
    hide Sound, Due;
  }

  lemma ArrivedFinal(s: Session, r: Request, data: string, asks: seq<Asking>, turn: Turn, f: nat)
    requires s.at.req == Some(r) && turn.Stop? && turn.done && FirstFinal(Lines(s.at.unread + data)) == Some(f)
    ensures
      var to := s.taken + f;
      Arrived(s, data, asks, turn) == s.(
        at := turn.state, stream := s.stream + data, taken := to + 1,
        hal := Runs.FinalLine(s.hal, Entries(asks), Runs.Success),
        asked := s.asked + Texts(asks),
        exchanges := s.exchanges + [Exchange(r, s.since, s.arrived, to)])
  {
    hide Lines, FirstFinal, Runs.FinalLine, Entries, Texts;
  }

  lemma FinalAt(lines: seq<string>, since: nat, taken: nat, f: nat)
    requires since <= taken <= |lines| && FirstFinal(lines[taken..]) == Some(f)
    ensures taken + f < |lines| && f < |lines[taken..]| && lines[taken..][f] == lines[taken + f]
    ensures lines[since..taken] + lines[taken..][..f] == lines[since..taken + f]
  {
    hide CheckFinal;
  }

  lemma DueIs(e: Exchange, lines: seq<string>)
    requires e.from <= e.to < |lines|
    ensures Due(e, lines)
      == Response(TakenLines(e.request, lines[e.from..e.to]), lines[e.to], CheckFinal(lines[e.to]) == 1)
  {
  }

  /** The call that completes the exchange, as a session. */
  lemma DoFinal(s: Session, r: Request, data: string, asks: seq<Asking>, f: nat)
    requires Good(s) && s.at.req == Some(r) && Enabled(s, Arrive(data, asks))
    requires FirstFinal(Lines(s.at.unread + data)) == Some(f)
    ensures
      var u, lines, t, to := s.at.unread + data, Lines(s.stream + data), Do(s, Arrive(data, asks)), s.taken + f;
      && s.since <= to < |lines| && f + 1 <= |Lines(u)|
      && t == s.(
           at := t.at, stream := s.stream + data, taken := to + 1,
           hal := Runs.FinalLine(s.hal, Entries(asks), Runs.Success),
           asked := s.asked + Texts(asks),
           exchanges := s.exchanges + [Exchange(r, s.since, s.arrived, to)])
      && t.at.unread == Behind(u, f + 1) && t.at.req == None && t.at.lines == None
      && Responses(t.at.log) == Responses(s.at.log) + [Due(Exchange(r, s.since, s.arrived, to), lines)]
      && Sends(t.at.log) == Sends(s.at.log)
  {
    hide *;
    DoArrive(s, data, asks);
    AtHand(s, r, data);
    if Prompts(s, data) {
      PromptHasNoFinal(s, data);
    }
    var u, lines := s.at.unread + data, Lines(s.stream + data);
    var e, seen := Exchange(r, s.since, s.arrived, s.taken + f), lines[s.since..s.taken];
    FinalAt(lines, s.since, s.taken, f);
    DueIs(e, lines);
    ScanDone(s.at, r, seen, u, f, Completed(Due(e, lines)));
    ArrivedFinal(s, r, data, asks, Scan(s.at.(unread := u)), f);
    OneMore(s.at.log, LaterOthers(r, seen, Lines(u)[..f]), Completed(Due(e, lines)));
  }

  lemma SoundExchange(a: seq<string>, b: seq<string>, r: Request, since: nat, arrived: nat, taken: nat, f: nat)
    requires since <= taken <= |a| && a <= b && FirstFinal(b[taken..]) == Some(f)
    requires forall i :: since <= i < taken ==> CheckFinal(a[i]) == 0
    ensures Sound(Exchange(r, since, arrived, taken + f), b)
  {
    hide CheckFinal;
    assert forall i :: since <= i < taken ==> b[i] == a[i];
    assert forall i :: taken <= i < taken + f ==> b[i] == b[taken..][i - taken];
    assert b[taken + f] == b[taken..][f];
  }

  lemma ArriveFinal(s: Session, r: Request, data: string, asks: seq<Asking>, f: nat)
    requires Good(s) && s.at.req == Some(r) && Enabled(s, Arrive(data, asks))
    requires FirstFinal(Lines(s.at.unread + data)) == Some(f)
    ensures Good(Do(s, Arrive(data, asks)))
  {
    hide Smooth, Lines, Behind, Receive, CheckFinal, Matched, Delivered, Responses, Sends, Do, InProgress;
    hide ComesToPrompt, FirstFinal, Sound, Due, Runs.FinalLine, Entries, Texts, SecondParts;
    DoFinal(s, r, data, asks, f);
    AtHand(s, r, data);
    var u, lines := s.at.unread + data, Lines(s.stream + data);
    var e := Exchange(r, s.since, s.arrived, s.taken + f);
    SoundExchange(Lines(s.stream), lines, r, s.since, s.arrived, s.taken, f);
    BehindBehind(s.stream + data, s.taken, f + 1);
    var t := Do(s, Arrive(data, asks));
    FinalMatched(s.hal, s.at, t.at, s.asked, |s.exchanges|, asks);
    DeliveredExtends(s.exchanges, s.asked, Responses(s.at.log), Lines(s.stream), lines);
    DeliveredOneMore(s.exchanges, s.asked, Texts(asks), Responses(s.at.log), lines, e);
  }

  lemma MoveGood(s: Session, m: Move)
    requires Good(s) && Enabled(s, m)
    ensures Good(Do(s, m))
  {
    hide Good, Do, Smooth, Quiet, Lines, ComesToPrompt;
    match m
    case Ask(a) => AskGood(s, a);
    case Send => SendGood(s);
    case Arrive(data, asks) =>
      match s.at.req
      case None => ArriveIdle(s, data, asks);
      case Some(r) =>
        match FirstFinal(Lines(s.at.unread + data))
        case Some(f) => ArriveFinal(s, r, data, asks, f);
        case None =>
          if Prompts(s, data) {
            ArrivePrompt(s, r, data, asks);
          } else {
            ArriveBusy(s, r, data, asks);
          }
  }

  lemma {:induction false} SessionGood(s: Session, moves: seq<Move>)
    requires Good(s) && Goes(s, moves)
    ensures Good(Go(s, moves))
    decreases |moves|
  {
    hide Good, Do, Enabled;
    if moves == [] {
    } else {
      MoveGood(s, moves[0]);
      SessionGood(Do(s, moves[0]), moves[1..]);
    }
  }

  lemma StartGood()
    ensures Good(Start())
  {
  }

  /**
    In every session of one channel, with ordinary requests, of which callbacks may make some, commands of
    two parts, and no prompts but answered ones at the end of a call: the n-th response handed over is the
    n-th request's. It holds exactly the lines its type takes out of those taken for it, which are
    consecutive lines of the stream, begin behind the final line before it and end with the first final
    line from there on. Each prompt sends the second part of the request in progress, once. Whether the
    lines arrived after the request was sent is the subject of SessionLater.
   */
  lemma SessionDelivers(moves: seq<Move>)
    requires Goes(Start(), moves)
    ensures
      var s := Go(Start(), moves);
      && Delivered(s.exchanges, s.asked, Responses(s.at.log), Lines(s.stream))
      && Sends(s.at.log) == SecondParts(s.prompted)
  {
    StartGood();
    SessionGood(Start(), moves);
    hide Delivered, Go, Goes, Start, Sends, SecondParts;
  }

  // ---------------------------------------------------------------------------------------
  // Lines that had arrived before their request was sent.
  // ---------------------------------------------------------------------------------------

  /** The lines taken for a request are consecutive, so the first one decides if all arrived after it was sent. */
  predicate OnlyLater(e: Exchange) {
    e.arrived <= e.from
  }

  /** So it is with every exchange and with what is taken for the request in progress. */
  predicate AllLater(s: Session) {
    && (forall e <- s.exchanges :: OnlyLater(e))
    && (s.at.req.Some? ==> s.arrived <= s.since)
  }

  predicate Timed(s: Session) {
    && (forall e <- s.exchanges :: e.from <= e.arrived && e.from <= e.to)
    && (s.at.req.Some? ==> s.since <= s.arrived)
  }

  /** The idle send gives the engine a request while a complete line is unread. */
  predicate FindsUnread(s: Session, m: Move)
    requires Enabled(s, m)
  {
    m.Send? && s.at.req.None? && Do(s, m).at.req.Some? && Lines(s.at.unread) != []
  }

  /** Some idle send does so. */
  predicate SomeFindsUnread(s: Session, moves: seq<Move>)
    requires Goes(s, moves)
    decreases |moves|
  {
    moves != [] && (FindsUnread(s, moves[0]) || SomeFindsUnread(Do(s, moves[0]), moves[1..]))
  }

  lemma UnreadLines(s: Session)
    requires Good(s)
    ensures s.taken <= |Lines(s.stream)| && Lines(s.at.unread) == Lines(s.stream)[s.taken..]
  {
    hide Lines, Behind, Responses, CheckFinal, Matched, Delivered, Collecting;
    assert s.stream + "" == s.stream && s.at.unread + "" == s.at.unread;
    LinesAtHand(s.stream, s.taken, "");
  }

  lemma SendEnabled(s: Session)
    requires s.hal.idles > 0
    ensures Enabled(s, Send)
  {
  }

  lemma SendLater(s: Session)
    requires Good(s) && Timed(s) && s.hal.idles > 0
    ensures Timed(Do(s, Send)) && (AllLater(Do(s, Send)) <==> AllLater(s) && !FindsUnread(s, Send))
  {
    GoodMatched(s);
    SendMatched(s);
    UnreadLines(s);
    hide Good, Do, Lines, Matched, OnlyLater, Enabled;
    SendEnabled(s);
  }

  lemma GoodMatched(s: Session)
    requires Good(s)
    ensures Matched(s.hal, s.at, s.asked, |s.exchanges|)
  {
    hide Lines, Behind, Collecting, Delivered, Matched;
  }

  lemma OneLater(es: seq<Exchange>, e: Exchange)
    ensures (forall x <- es + [e] :: OnlyLater(x)) <==> (forall x <- es :: OnlyLater(x)) && OnlyLater(e)
  {
    hide OnlyLater;
    assert e in es + [e];
    assert forall x <- es :: x in es + [e];
  }

  lemma SameTimes(s: Session, t: Session)
    requires t.exchanges == s.exchanges && t.since == s.since && t.arrived == s.arrived
    requires t.at.req.Some? <==> s.at.req.Some?
    ensures (Timed(t) <==> Timed(s)) && (AllLater(t) <==> AllLater(s))
  {
    hide OnlyLater;
  }

  /** A call while no request is outstanding. */
  lemma DoIdle(s: Session, data: string, asks: seq<Asking>)
    requires s.at.req.None? && Enabled(s, Arrive(data, asks))
    ensures
      var t := Do(s, Arrive(data, asks));
      && t == s.(at := t.at, stream := t.stream, taken := t.taken)
      && t.at.req.None? && t.at.unread == Rest(s.at.unread + data)
  {
    ScanIdle(s.at.(unread := s.at.unread + data));
    hide Quiet, Lines, Rest, Scan;
  }

  lemma FinalTimes(s: Session, t: Session, e: Exchange)
    requires Timed(s) && s.at.req.Some? && t.at.req.None? && t.exchanges == s.exchanges + [e]
    requires e.from == s.since && e.arrived == s.arrived && e.from <= e.to
    ensures Timed(t) && (AllLater(t) <==> AllLater(s))
  {
    OneLater(s.exchanges, e);
    assert OnlyLater(e) <==> s.arrived <= s.since;
    hide OnlyLater;
  }

  lemma ArriveLater(s: Session, data: string, asks: seq<Asking>)
    requires Good(s) && Timed(s) && Enabled(s, Arrive(data, asks))
    ensures
      var t := Do(s, Arrive(data, asks));
      Timed(t) && (AllLater(t) <==> AllLater(s))
  {
    hide *;
    var t := Do(s, Arrive(data, asks));
    match s.at.req
    case None =>
      DoIdle(s, data, asks);
      SameTimes(s, t);
    case Some(r) =>
      match FirstFinal(Lines(s.at.unread + data))
      case Some(f) =>
        DoFinal(s, r, data, asks, f);
        FinalTimes(s, t, Exchange(r, s.since, s.arrived, s.taken + f));
      case None =>
        if Prompts(s, data) {
          DoPrompt(s, r, data, asks);
          Progressing(t.at, r, Lines(s.stream + data)[s.since..]);
        } else {
          DoBusy(s, r, data, asks);
          Progressing(t.at, r, Lines(s.stream + data)[s.since..]);
        }
        SameTimes(s, t);
  }

  lemma MoveLater(s: Session, m: Move)
    requires Good(s) && Timed(s) && Enabled(s, m)
    ensures Timed(Do(s, m)) && (AllLater(Do(s, m)) <==> AllLater(s) && !FindsUnread(s, m))
  {
    match m
    case Ask(_) => hide OnlyLater;
    case Send => SendLater(s);
    case Arrive(data, asks) => ArriveLater(s, data, asks);
  }

  lemma {:induction false} GoLater(s: Session, moves: seq<Move>)
    requires Good(s) && Timed(s) && Goes(s, moves)
    ensures AllLater(Go(s, moves)) <==> AllLater(s) && !SomeFindsUnread(s, moves)
    decreases |moves|
  {
    hide Good, Timed, AllLater, FindsUnread, Do, Enabled;
    if moves == [] {
    } else {
      MoveGood(s, moves[0]);
      MoveLater(s, moves[0]);
      GoLater(Do(s, moves[0]), moves[1..]);
    }
  }

  /**
    All lines of all responses arrived after their request was sent exactly when no idle send that
    gives the engine a request finds a complete line unread.
   */
  lemma SessionLater(moves: seq<Move>)
    requires Goes(Start(), moves)
    ensures AllLater(Go(Start(), moves)) <==> !SomeFindsUnread(Start(), moves)
  {
    StartGood();
    GoLater(Start(), moves);
  }

  /** The lines of a call that stay unread: those behind the final line that ends it, if one does. */
  function Kept(lines: seq<string>, collecting: bool): seq<string> {
    match if collecting then FirstFinal(lines) else None
    case None => []
    case Some(f) => lines[f + 1..]
  }

  /** A complete line is left unread only by a call that completes a response, behind its final line. */
  lemma LeftUnread(s: Session, data: string, asks: seq<Asking>)
    requires Good(s) && Enabled(s, Arrive(data, asks))
    ensures Lines(Do(s, Arrive(data, asks)).at.unread) == Kept(Lines(s.at.unread + data), s.at.req.Some?)
  {
    var u := s.at.unread + data;
    RestSettled(u);
    hide Good, Enabled, Do, Lines, Rest, Behind, FirstFinal, ComesToPrompt, InProgress, Responses, Sends, Due;
    match s.at.req
    case None => DoIdle(s, data, asks);
    case Some(r) =>
      match FirstFinal(Lines(u))
      case Some(f) =>
        DoFinal(s, r, data, asks, f);
        BehindLines(u, f + 1);
      case None =>
        if Prompts(s, data) {
          DoPrompt(s, r, data, asks);
          NoLines();
        } else {
          DoBusy(s, r, data, asks);
        }
  }

  lemma NoLines()
    ensures Lines("") == []
  {
  }

  lemma OkAnd(rest: string)
    ensures CutLine("OK\r" + rest) == Line("OK", rest)
    ensures !AtPrompt(("OK\r" + rest)[Blank("OK\r" + rest)..])
    ensures CheckFinal("OK") != 0
  {
    var s := "OK\r" + rest;
    assert s[0] == 'O' && s[1] == 'K' && s[2] == CR;
    assert s[0..] == s && s[1..][0] == 'K' && s[1..][1..][0] == CR;
    assert FirstCr(s[1..][1..]) == Some(0) && FirstCr(s[1..]) == Some(1) && FirstCr(s) == Some(2);
    assert s[..2] == "OK" && s[2 + 1..] == rest;
    CutLineAt(s, 0, 2);
  }

  /** A line OK, with other lines behind it or nothing, completes any request. */
  lemma OkCompletes(r: Request, rest: string)
    ensures Smooth(r, "OK\r" + rest) && FirstFinal(Lines("OK\r" + rest)) == Some(0)
    ensures Lines("OK\r" + rest) == ["OK"] + Lines(rest) && Behind("OK\r" + rest, 1) == rest
  {
    OkAnd(rest);
    hide CutLine, AtPrompt, CheckFinal, Blank;
    assert (["OK"] + Lines(rest))[0] == "OK";
  }

  lemma Then(s: Session, m: Move, moves: seq<Move>)
    requires Enabled(s, m) && Goes(Do(s, m), moves)
    ensures Goes(s, [m] + moves) && Go(s, [m] + moves) == Go(Do(s, m), moves)
  {
    hide Enabled, Do;
    assert ([m] + moves)[1..] == moves;
  }

  lemma Ends(s: Session)
    ensures Goes(s, []) && Go(s, []) == s
  {
  }

  /** What an idle send does when it gives the head of the queue to an engine that holds nothing. */
  lemma SendHead(s: Session, n: nat)
    requires s.hal.mode == Runs.At && s.hal.idles == 1 && s.hal.atReq.None? && s.at.req.None?
    requires s.hal.queue != [] && s.hal.queue[0].id == n < |s.asked|
    requires !s.hal.queue[0].sent && !s.hal.queue[0].autoFree
    ensures
      var t := Do(s, Send);
      && t.hal.queue == s.hal.queue[0 := s.hal.queue[0].(sent := true)] && t.hal.idles == 0 && t.hal.mode == Runs.At
      && t == s.(hal := t.hal, at := s.at.(req := Some(s.asked[n])),
                 since := s.taken, arrived := |Lines(s.stream)|)
  {
    hide Lines;
    assert Queue.NextPending(s.hal.queue) == Some(0);
    hide Queue.NextPending;
  }

  lemma TwoAsked(a: Asking, b: Asking)
    requires Order.OrdinaryRequest(a.p) && Order.OrdinaryRequest(b.p)
    ensures
      var s := Do(Do(Start(), Ask(a)), Ask(b));
      && s == Start().(hal := s.hal, asked := [a.r, b.r])
      && s.hal == Runs.State(Runs.At, [a.p, b.p.(id := 1)], 2, 1, None, [])
  {
    var s1 := Do(Start(), Ask(a));
    assert s1.hal == Runs.State(Runs.At, [a.p], 1, 1, None, []) && s1.asked == [a.r];
    hide Start;
    Order.PushOrdinary(s1.hal, b.p);
    assert [a.p] + [b.p.(id := 1)] == [a.p, b.p.(id := 1)] && [a.r] + [b.r] == [a.r, b.r];
  }

  /** A line OK at the front of the octets at hand completes the request in progress, and no more is taken. */
  lemma OkArrives(s: Session, r: Request, data: string, rest: string)
    requires Good(s) && s.at.req == Some(r) && s.at.unread + data == "OK\r" + rest
    ensures Enabled(s, Arrive(data, [])) && Good(Do(s, Arrive(data, [])))
    ensures
      var t := Do(s, Arrive(data, []));
      && t.at.req.None? && t.at.unread == rest && t.stream == s.stream + data && t.taken == s.taken + 1
      && t.asked == s.asked && t.hal == Runs.FinalLine(s.hal, [], Runs.Success)
      && t.exchanges == s.exchanges + [Exchange(r, s.since, s.arrived, s.taken)]
  {
    OkCompletes(r, rest);
    hide Good, Smooth, Lines, Behind, FirstFinal, Runs.FinalLine, TakenLines, OtherLines, CheckFinal;
    assert Enabled(s, Arrive(data, []));
    MoveGood(s, Arrive(data, []));
    DoFinal(s, r, data, [], 0);
    hide Do;
    assert Entries([]) == [] && s.asked + Texts([]) == s.asked;
  }

  lemma HeadAnswered(hal: Runs.State, p: Queue.Pending, q: Queue.Pending)
    requires hal.queue == [p, q] && hal.atReq.Some?
    ensures Runs.FinalLine(hal, [], Runs.Success)
      == hal.(queue := [q], atReq := None, idles := hal.idles + 1, log := hal.log + [Runs.Answered(p)])
  {
    assert Queue.RemoveAt([p, q], 0) == [q];
  }

  lemma FirstSent(a: Asking, b: Asking)
    requires Order.OrdinaryRequest(a.p) && Order.OrdinaryRequest(b.p)
    ensures
      var s := Do(Do(Start(), Ask(a)), Ask(b));
      var t := Do(s, Send);
      && Enabled(Start(), Ask(a)) && Enabled(Do(Start(), Ask(a)), Ask(b)) && Enabled(s, Send)
      && Good(t) && t.at == State("", false, Some(a.r), None, []) && t.asked == [a.r, b.r]
      && t.stream == "" && t.taken == t.since == t.arrived == 0 && t.exchanges == []
      && t.hal.mode == Runs.At && t.hal.idles == 0
      && t.hal.queue == [a.p.(sent := true), b.p.(id := 1)]
  {
    StartGood();
    var s := Do(Do(Start(), Ask(a)), Ask(b));
    MoveGood(Start(), Ask(a));
    MoveGood(Do(Start(), Ask(a)), Ask(b));
    TwoAsked(a, b);
    NoLines();
    assert Start().at == State("", false, None, None, []);
    hide Good, Order.OrdinaryRequest, Lines;
    SendHead(s, 0);
    MoveGood(s, Send);
    hide Do;
    assert [a.p, b.p.(id := 1)][0 := a.p.(sent := true)] == [a.p.(sent := true), b.p.(id := 1)];
  }

  lemma TwoOks(stream: string)
    requires stream == "OK\rOK\r"
    ensures stream == "OK\r" + "OK\r" && "OK\r" == "OK\r" + "" && |Lines(stream)| == 2
  {
    OkCompletes(Request(None, NoResult, None), "OK\r");
    OkCompletes(Request(None, NoResult, None), "");
    NoLines();
    hide Lines;
    assert "OK\r" + "" == "OK\r";
  }

  lemma FirstAnswered(s: Session, b: Queue.Pending, first: Queue.Pending, r: Request, stream: string)
    requires Good(s) && s.hal.mode == Runs.At && s.hal.idles == 0 && s.hal.atReq.Some?
    requires s.hal.queue == [first, b] && s.at.req == Some(r) && |s.asked| == 2
    requires s.stream == "" && s.at.unread == "" && stream == "OK\rOK\r"
    ensures Enabled(s, Arrive(stream, []))
    ensures
      var u := Do(s, Arrive(stream, []));
      && Good(u) && u.hal.mode == Runs.At && u.hal.idles == 1 && u.hal.atReq.None? && u.at.req.None?
      && u.hal.queue == [b] && u.asked == s.asked && u.stream == stream && u.at.unread == "OK\r"
      && u.taken == s.taken + 1
      && u.exchanges == s.exchanges + [Exchange(r, s.since, s.arrived, s.taken)]
  {
    hide *;
    TwoOks(stream);
    assert s.at.unread + stream == stream && s.stream + stream == stream;
    OkArrives(s, r, stream, "OK\r");
    HeadAnswered(s.hal, first, b);
  }

  lemma SecondSent(u: Session, b: Queue.Pending, t: Session)
    requires Good(u) && u.hal.mode == Runs.At && u.hal.idles == 1 && u.hal.atReq.None? && u.at.req.None?
    requires u.hal.queue == [b] && b.id == 1 && !b.sent && !b.autoFree && |u.asked| == 2
    requires u.stream == "OK\rOK\r" && Enabled(u, Send) && t == Do(u, Send)
    ensures Good(t) && t.at.req == Some(u.asked[1]) && t.at.unread == u.at.unread && t.exchanges == u.exchanges
    ensures t.since == t.taken == u.taken && t.arrived == 2 && t.asked == u.asked
  {
    hide *;
    TwoOks(u.stream);
    SendHead(u, 1);
    MoveGood(u, Send);
  }

  /** Six moves in a row. */
  lemma SixMoves(m: seq<Move>, a: Session, b: Session, c: Session, d: Session, e: Session, f: Session)
    requires |m| == 6
    requires Enabled(Start(), m[0]) && a == Do(Start(), m[0]) && Enabled(a, m[1]) && b == Do(a, m[1])
    requires Enabled(b, m[2]) && c == Do(b, m[2]) && Enabled(c, m[3]) && d == Do(c, m[3])
    requires Enabled(d, m[4]) && e == Do(d, m[4]) && Enabled(e, m[5]) && f == Do(e, m[5])
    ensures Goes(Start(), m) && Go(Start(), m) == f
  {
    hide *;
    Ends(f);
    Then(e, m[5], []);
    assert [m[5]] + [] == m[5..];
    Then(d, m[4], m[5..]);
    assert [m[4]] + m[5..] == m[4..];
    Then(c, m[3], m[4..]);
    assert [m[3]] + m[4..] == m[3..];
    Then(b, m[2], m[3..]);
    assert [m[2]] + m[3..] == m[2..];
    Then(a, m[1], m[2..]);
    assert [m[1]] + m[2..] == m[1..];
    Then(Start(), m[0], m[1..]);
    assert [m[0]] + m[1..] == m;
  }

  /** The queue knows that a request is in progress. */
  lemma GoodHolds(s: Session)
    requires Good(s) && s.at.req.Some?
    ensures s.hal.atReq.Some?
  {
    hide Lines, Behind, Collecting, Delivered;
  }

  lemma TooEarly(s: Session, e: Exchange)
    requires e in s.exchanges && e.from < e.arrived
    ensures !AllLater(s)
  {
  }

  /**
    The failing session: two requests are made, the first is sent, two final lines arrive in one call, and
    the second request is sent. The next call, whatever it brings, answers it with the line that had arrived
    before.
   */
  lemma EarlierLineAnswers(a: Asking, b: Asking, data: string, start: Session, moves: seq<Move>)
    requires Order.OrdinaryRequest(a.p) && Order.OrdinaryRequest(b.p) && start == Start()
    requires moves == [Ask(a), Ask(b), Send, Arrive("OK\rOK\r", []), Send, Arrive(data, [])]
    ensures Goes(start, moves)
    ensures Go(start, moves).exchanges == [Exchange(a.r, 0, 0, 0), Exchange(b.r, 1, 2, 1)]
    ensures !AllLater(Go(start, moves))
  {
    hide *;
    var stream := "OK\rOK\r";
    FirstSent(a, b);
    OrdinaryIs(b.p);
    var s1 := Do(start, Ask(a));
    var s2 := Do(s1, Ask(b));
    var s3 := Do(s2, Send);
    GoodHolds(s3);
    FirstAnswered(s3, b.p.(id := 1), a.p.(sent := true), a.r, stream);
    var s4 := Do(s3, Arrive(stream, []));
    SendEnabled(s4);
    var s5 := Do(s4, Send);
    SecondSent(s4, b.p.(id := 1), s5);
    OkArrives(s5, b.r, data, data);
    var s6 := Do(s5, Arrive(data, []));
    SixMoves(moves, s1, s2, s3, s4, s5, s6);
    assert [Exchange(a.r, 0, 0, 0)] + [Exchange(b.r, 1, 2, 1)] == [Exchange(a.r, 0, 0, 0), Exchange(b.r, 1, 2, 1)];
    TooEarly(s6, Exchange(b.r, 1, 2, 1));
  }

  lemma OrdinaryIs(p: Queue.Pending)
    requires Order.OrdinaryRequest(p)
    ensures !p.sent && !p.autoFree && p.id == 0
  {
  }
}
