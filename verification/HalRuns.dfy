/**
  A hardware adapter and its queue as a transition system: requests, idle sends, responses and
  cancellation, and what holds in every state reached.
 */
module HalRuns {
  import opened Wrappers
  import opened QueueOrder

  datatype Mode = At | Custom

  datatype SendResult = Success | Failure | HookStop

  datatype Event = SentOut(p: Pending) | Answered(p: Pending)

  /** idles counts the scheduled idle sends; atReq is the id of the request the AT engine holds. */
  datatype State = State(mode: Mode, queue: Queue, nextId: nat, idles: nat, atReq: Option<nat>, log: seq<Event>)

  function Initial(mode: Mode): State {
    State(mode, [], 0, 0, None, [])
  }

  // ---------------------------------------------------------------------------------------
  // The operations.
  // ---------------------------------------------------------------------------------------

  /** An id of zero stands for "assign one". */
  function Push(s: State, p: Pending): State {
    if p.id == 0 then s.(queue := Insert(s.queue, p.(id := s.nextId)), nextId := s.nextId + 1)
    else s.(queue := Insert(s.queue, p))
  }

  datatype Sending = Sending(state: State, renew: bool)

  /** Sends the next pending request, if any; renew asks to be called again. */
  function IdleSend(s: State, r: SendResult): Sending {
    match NextPending(s.queue)
    case None => Sending(s, false)
    case Some(i) =>
      var p := s.queue[i].(sent := true);
      var q := s.queue[i := p];
      var s1 := s.(queue := q,
                   atReq := if s.mode == At then Some(p.id) else s.atReq,
                   log := if r == Success then s.log + [SentOut(p)] else s.log);
      if r == HookStop then Sending(s1, false)
      else if p.autoFree then Sending(s1.(queue := RemoveAt(q, i)), true)
      else if r == Failure then Sending(s1.(queue := RemoveAt(q, 0)), false)
      else Sending(s1, false)
  }

  function Request(s: State, p: Pending, r: SendResult): State {
    var s1 := Push(s, p);
    if p.priority == Immediately then IdleSend(s1, r).state
    else if |s1.queue| == 1 then s1.(idles := s1.idles + 1)
    else s1
  }

  /** The requests that a response callback makes, before the next idle send is scheduled. */
  function RequestAll(s: State, ps: seq<Pending>, r: SendResult): State
    decreases |ps|
  {
    if ps == [] then s else RequestAll(Request(s, ps[0], r), ps[1..], r)
  }

  function RunIdle(s: State, r: SendResult): State
    requires s.idles > 0
  {
    var sending := IdleSend(s, r);
    if sending.renew then sending.state
    else sending.state.(idles := sending.state.idles - if sending.state.idles > 0 then 1 else 0)
  }

  function HasId(id: nat): Pending -> bool {
    (p: Pending) => p.id == id
  }

  function HasCommand(command: int): Pending -> bool {
    (p: Pending) => p.command == command
  }

  /** A response in CUSTOM mode carries the id of its request. */
  function Respond(s: State, id: nat, ps: seq<Pending>, r: SendResult): State {
    match FirstWith(s.queue, HasId(id))
    case None => s
    case Some(i) =>
      var s1 := s.(queue := RemoveAt(s.queue, i), log := s.log + [Answered(s.queue[i])]);
      var s2 := RequestAll(s1, ps, r);
      s2.(idles := s2.idles + 1)
  }

  /** A final line in AT mode answers the head of the queue, if a request is outstanding at all. */
  function FinalLine(s: State, ps: seq<Pending>, r: SendResult): State {
    if s.atReq.None? then s
    else
      var s1 := if s.queue == [] then s.(atReq := None)
                else s.(atReq := None, queue := RemoveAt(s.queue, 0), log := s.log + [Answered(s.queue[0])]);
      var s2 := RequestAll(s1, ps, r);
      s2.(idles := s2.idles + 1)
  }

  /** Data handed to the AT engine may hold the final line that completes its request. */
  datatype Data = Data(holdsFinal: bool)

  /** The AT engine's answer: nothing without data, else whether the request in progress was completed. */
  function AtProcess(s: State, data: Option<Data>): bool {
    data.Some? && data.value.holdsFinal && s.atReq.Some?
  }

  /** Data for the adapter, by its mode: a line for the AT engine, or the response to a request. */
  function Dispatch(s: State, id: nat, data: Option<Data>, ps: seq<Pending>, r: SendResult): State {
    match s.mode
    case At => if AtProcess(s, data) then FinalLine(s, ps, r) else s
    case Custom => Respond(s, id, ps, r)
  }

  predicate Matches(q: Queue, command: int) {
    FirstWith(q, HasCommand(command)).Some?
  }

  /**
    One turn of the cancelling loop: the first match is dispatched a response without data, and its
    callback makes the requests ps.
   */
  function CancelTurn(s: State, command: int, ps: seq<Pending>): State
    requires Matches(s.queue, command)
  {
    Dispatch(s, s.queue[FirstWith(s.queue, HasCommand(command)).value].id, None, ps, Success)
  }

  /** The loop comes to an end within |calls| turns; the callback of turn k makes the requests calls[k]. */
  predicate Cancels(s: State, command: int, calls: seq<seq<Pending>>)
    decreases |calls|
  {
    Matches(s.queue, command) ==>
      calls != [] && Cancels(CancelTurn(s, command, calls[0]), command, calls[1..])
  }

  /** The loop runs until no pending request has the command. */
  function Cancel(s: State, command: int, calls: seq<seq<Pending>>): State
    requires Cancels(s, command, calls)
    decreases |calls|
  {
    if Matches(s.queue, command) then Cancel(CancelTurn(s, command, calls[0]), command, calls[1..]) else s
  }

  /** The AT engine refuses a response without data, so that no turn changes anything. */
  lemma {:induction false} AtCancels(s: State, command: int, calls: seq<seq<Pending>>)
    requires s.mode == At
    ensures Cancels(s, command, calls) <==> !Matches(s.queue, command)
    decreases |calls|
  {
    if calls == [] || !Matches(s.queue, command) {
    } else {
      assert CancelTurn(s, command, calls[0]) == s;
      AtCancels(s, command, calls[1..]);
    }
  }

  datatype Step =
    | DoRequest(p: Pending)
    | DoIdle
    | DoForce
    | DoRespond(id: nat, ps: seq<Pending>)
    | DoFinal(ps: seq<Pending>)
    | DoCancel(command: int, calls: seq<seq<Pending>>)

  /**
    Requests arrive unsent; idle sends run when scheduled; each mode has its own responses; a
    cancellation is a step when it comes to an end.
   */
  predicate Enabled(s: State, step: Step) {
    match step
    case DoRequest(p) => !p.sent
    case DoIdle => s.idles > 0
    case DoForce => true
    case DoRespond(_, ps) => s.mode == Custom && forall p :: p in ps ==> !p.sent
    case DoFinal(ps) => s.mode == At && forall p :: p in ps ==> !p.sent
    case DoCancel(command, calls) => Cancels(s, command, calls) && forall ps <- calls, p <- ps :: !p.sent
  }

  function Take(s: State, step: Step, r: SendResult): State
    requires Enabled(s, step)
  {
    match step
    case DoRequest(p) => Request(s, p, r)
    case DoIdle => RunIdle(s, r)
    case DoForce => IdleSend(s, r).state
    case DoRespond(id, ps) => Respond(s, id, ps, r)
    case DoFinal(ps) => FinalLine(s, ps, r)
    case DoCancel(command, calls) => Cancel(s, command, calls)
  }

  /** A run in which every send succeeds. */
  predicate Runs(s: State, steps: seq<Step>)
    decreases |steps|
  {
    steps == [] || (Enabled(s, steps[0]) && Runs(Take(s, steps[0], Success), steps[1..]))
  }

  function Run(s: State, steps: seq<Step>): State
    requires Runs(s, steps)
    decreases |steps|
  {
    if steps == [] then s else Run(Take(s, steps[0], Success), steps[1..])
  }

  // ---------------------------------------------------------------------------------------
  // No lost wake-up.
  // ---------------------------------------------------------------------------------------

  predicate AnySent(q: Queue) {
    exists i :: 0 <= i < |q| && q[i].sent
  }

  /** A queue that is not empty waits for a response or has an idle send scheduled. */
  predicate Awake(s: State) {
    s.queue == [] || s.idles > 0 || AnySent(s.queue)
  }

  /** IMMEDIATELY entries are sent as they arrive, and a sent entry waits for its response. */
  predicate Settled(s: State) {
    && s.mode == Custom
    && (forall p :: p in s.queue && p.priority == Immediately ==> p.sent)
    && (forall p :: p in s.queue && p.sent ==> !p.autoFree)
  }

  lemma {:induction false} NextIsFirstUnsent(q: Queue, n: nat)
    requires n < |q| && !q[n].sent
    requires forall i :: 0 <= i < n ==> q[i].priority == Immediately && q[i].sent
    ensures NextPending(q) == Some(n)
    decreases n
  {
    if n == 0 {
    } else {
      NextIsFirstUnsent(q[1..], n - 1);
    }
  }

  lemma {:induction false} NothingNext(q: Queue)
    requires NextPending(q).None?
    ensures q == [] || AnySent(q)
  {
    if q == [] {
    } else {
      assert q[0].sent;
    }
  }

  lemma InsertElements(q: Queue, p: Pending)
    ensures forall x :: x in Insert(q, p) <==> x in q || x == p
    ensures |Insert(q, p)| == |q| + 1
  {
    var n := HeadPosition(q);
    assert q == q[..n] + q[n..];
  }

  lemma RemoveElements(q: Queue, i: nat)
    requires i < |q|
    ensures forall x :: x in RemoveAt(q, i) ==> x in q
  {
  }

  lemma AnySentInsert(q: Queue, p: Pending)
    requires AnySent(q)
    ensures AnySent(Insert(q, p))
  {
    InsertElements(q, p);
    var i :| 0 <= i < |q| && q[i].sent;
    assert q[i] in Insert(q, p);
  }

  lemma PushSettled(s: State, p: Pending)
    requires Settled(s) && !p.sent && p.priority != Immediately
    ensures Settled(Push(s, p))
    ensures AnySent(s.queue) ==> AnySent(Push(s, p).queue)
    ensures |Push(s, p).queue| == |s.queue| + 1 && Push(s, p).idles == s.idles
  {
    var x := if p.id == 0 then p.(id := s.nextId) else p;
    InsertElements(s.queue, x);
    if AnySent(s.queue) {
      AnySentInsert(s.queue, x);
    }
  }

  lemma IdleSendSettled(s: State)
    requires Settled(s)
    ensures var t := IdleSend(s, Success);
      && Settled(t.state) && t.state.idles == s.idles
      && (AnySent(s.queue) ==> AnySent(t.state.queue))
      && (t.renew || t.state.queue == [] || AnySent(t.state.queue))
      && (s.queue == [] ==> t.state == s)
  {
    match NextPending(s.queue)
    case None => NothingNext(s.queue);
    case Some(i) =>
      var p := s.queue[i].(sent := true);
      var q := s.queue[i := p];
      if AnySent(s.queue) {
        var j :| 0 <= j < |s.queue| && s.queue[j].sent;
        if p.autoFree {
          assert s.queue[j] == RemoveAt(q, i)[if j < i then j else j - 1];
        }
        assert q[j].sent;
      }
      RemoveElements(q, i);
      if !p.autoFree {
        assert q[i].sent;
      }
  }

  lemma InsertedAt(q: Queue, n: nat, x: Pending, y: Pending)
    requires n <= |q|
    ensures
      var all := InsertAt(q, n, x);
      && n < |all| && all[n] == x && (forall i :: 0 <= i < n ==> all[i] == q[i])
      && all[n := y] == InsertAt(q, n, y)
      && RemoveAt(InsertAt(q, n, y), n) == q
  {
  }

  lemma ImmediateInsert(q: Queue, x: Pending, sent: Pending)
    requires forall p :: p in q && p.priority == Immediately ==> p.sent
    requires x.priority == Immediately && !x.sent && sent == x.(sent := true)
    ensures var n, all := HeadPosition(q), Insert(q, x);
      && n < |all| && all[n] == x
      && NextPending(all) == Some(n)
      && all[n := sent] == Insert(q, sent)
      && RemoveAt(all[n := sent], n) == q
  {
    hide HeadPosition, NextPending;
    var n := HeadPosition(q);
    assert forall i :: 0 <= i < n ==> q[i].priority == Immediately && q[i] in q;
    InsertedAt(q, n, x, sent);
    NextIsFirstUnsent(InsertAt(q, n, x), n);
  }

  /** An IMMEDIATELY request is the one that the send it triggers picks. */
  lemma ImmediateRequest(s: State, p: Pending)
    requires Settled(s) && !p.sent && p.priority == Immediately
    ensures var t := Request(s, p, Success);
      && Settled(t) && t.idles == s.idles
      && (AnySent(s.queue) ==> AnySent(t.queue))
      && (t.queue == s.queue || AnySent(t.queue))
  {
    var x := if p.id == 0 then p.(id := s.nextId) else p;
    var sent := x.(sent := true);
    ImmediateInsert(s.queue, x, sent);
    InsertElements(s.queue, sent);
    hide Insert, RemoveAt, NextPending, HeadPosition;
    var q1 := Insert(s.queue, sent);
    assert sent in q1;
    assert AnySent(q1);
    assert IdleSend(Push(s, p), Success).state.queue == if p.autoFree then s.queue else q1;
    assert IdleSend(Push(s, p), Success).state.idles == s.idles;
    hide IdleSend, Push;
  }

  lemma RequestAwake(s: State, p: Pending)
    requires Settled(s) && !p.sent
    ensures Settled(Request(s, p, Success))
    ensures Awake(s) ==> Awake(Request(s, p, Success))
    ensures Request(s, p, Success).idles >= s.idles
  {
    if p.priority == Immediately {
      ImmediateRequest(s, p);
    } else {
      PushSettled(s, p);
    }
  }

  lemma {:induction false} RequestAllSettled(s: State, ps: seq<Pending>)
    requires Settled(s) && forall p :: p in ps ==> !p.sent
    ensures Settled(RequestAll(s, ps, Success))
    decreases |ps|
  {
    if ps == [] {
    } else {
      RequestAwake(s, ps[0]);
      RequestAllSettled(Request(s, ps[0], Success), ps[1..]);
    }
  }

  lemma RespondAwake(s: State, id: nat, ps: seq<Pending>)
    requires Settled(s) && Awake(s) && forall p :: p in ps ==> !p.sent
    ensures Settled(Respond(s, id, ps, Success)) && Awake(Respond(s, id, ps, Success))
  {
    match FirstWith(s.queue, HasId(id))
    case None =>
    case Some(i) =>
      RemoveElements(s.queue, i);
      var s1 := s.(queue := RemoveAt(s.queue, i), log := s.log + [Answered(s.queue[i])]);
      RequestAllSettled(s1, ps);
  }

  lemma {:induction false} CancelAwake(s: State, command: int, calls: seq<seq<Pending>>)
    requires Settled(s) && Awake(s) && Cancels(s, command, calls)
    requires forall ps <- calls, p <- ps :: !p.sent
    ensures Settled(Cancel(s, command, calls)) && Awake(Cancel(s, command, calls))
    decreases |calls|
  {
    hide Respond, Awake;
    if !Matches(s.queue, command) {
    } else {
      var i := FirstWith(s.queue, HasCommand(command)).value;
      assert calls[0] in calls;
      RespondAwake(s, s.queue[i].id, calls[0]);
      CancelAwake(CancelTurn(s, command, calls[0]), command, calls[1..]);
    }
  }

  lemma StepAwake(s: State, step: Step)
    requires Settled(s) && Awake(s) && Enabled(s, step)
    ensures Settled(Take(s, step, Success)) && Awake(Take(s, step, Success))
  {
    hide IdleSend, Request, Respond, Cancel;
    match step
    case DoRequest(p) => RequestAwake(s, p);
    case DoIdle => IdleSendSettled(s);
    case DoForce => IdleSendSettled(s);
    case DoRespond(id, ps) => RespondAwake(s, id, ps);
    case DoFinal(_) =>
    case DoCancel(command, calls) => CancelAwake(s, command, calls);
  }

  lemma {:induction false} RunAwake(s: State, steps: seq<Step>)
    requires Settled(s) && Awake(s) && Runs(s, steps)
    ensures Settled(Run(s, steps)) && Awake(Run(s, steps))
    decreases |steps|
  {
    hide Settled, Awake, Take;
    if steps == [] {
    } else {
      StepAwake(s, steps[0]);
      RunAwake(Take(s, steps[0], Success), steps[1..]);
    }
  }

  /**
    No lost wake-up: in CUSTOM mode, with successful sends and any mix of priorities, auto-free
    flags, callbacks that make requests, and cancellations that come to an end, a queue that is not
    empty waits for a response or has an idle send scheduled.
   */
  lemma NoLostWakeUp(steps: seq<Step>)
    requires Runs(Initial(Custom), steps)
    ensures Awake(Run(Initial(Custom), steps))
  {
    RunAwake(Initial(Custom), steps);
  }
}
