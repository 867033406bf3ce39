/**
  Which request a response is given to: by the head of the queue in AT mode, by id in CUSTOM mode.
 */
module HalCorrelation {
  import opened Wrappers
  import opened QueueOrder
  import opened HalRuns

  function AnsweredIds(log: seq<Event>): seq<nat> {
    if log == [] then []
    else
      var n := |log| - 1;
      AnsweredIds(log[..n]) + match log[n] case Answered(p) => [p.id] case _ => []
  }

  lemma AnsweredIdsSnoc(log: seq<Event>, e: Event)
    ensures AnsweredIds(log + [e]) == AnsweredIds(log) + match e case Answered(p) => [p.id] case _ => []
  {
    assert (log + [e])[..|log|] == log;
  }

  lemma SendAnswers(s: State)
    ensures AnsweredIds(IdleSend(s, Success).state.log) == AnsweredIds(s.log)
    ensures IdleSend(s, Success).state.nextId == s.nextId
  {
    hide NextPending, RemoveAt, AnsweredIds;
    match NextPending(s.queue)
    case None =>
    case Some(i) => AnsweredIdsSnoc(s.log, SentOut(s.queue[i].(sent := true)));
  }

  // ---------------------------------------------------------------------------------------
  // AT mode.
  // ---------------------------------------------------------------------------------------

  /** The AT engine's request is that of the head, which is the only sent entry, or there is none. */
  predicate HeadInFlight(s: State) {
    && s.mode == At
    && (forall i :: 1 <= i < |s.queue| ==> !s.queue[i].sent)
    && s.atReq == (if s.queue != [] && s.queue[0].sent then Some(s.queue[0].id) else None)
    && (forall p :: p in s.queue ==> !p.autoFree)
  }

  predicate NoImmediate(q: Queue) {
    forall p :: p in q ==> p.priority != Immediately
  }

  predicate Plain(p: Pending) {
    !p.sent && !p.autoFree
  }

  function WithId(s: State, p: Pending): Pending {
    if p.id == 0 then p.(id := s.nextId) else p
  }

  lemma PushOrdinary(s: State, p: Pending)
    requires p.priority == Default || p.priority == Low
    ensures Request(s, p, Success).queue == s.queue + [WithId(s, p)]
    ensures Request(s, p, Success).(idles := s.idles) == Push(s, p)
  {
  }

  lemma PushHigh(s: State, p: Pending)
    requires p.priority == High && NoImmediate(s.queue)
    ensures Request(s, p, Success).queue == [WithId(s, p)] + s.queue
    ensures Request(s, p, Success).(idles := s.idles) == Push(s, p)
  {
    assert s.queue != [] ==> s.queue[0] in s.queue;
  }

  /**
    A new request leaves the request in flight at the head of the queue exactly when it is ordinary
    or nothing is in flight.
   */
  lemma RequestKeepsHead(s: State, p: Pending)
    requires HeadInFlight(s) && NoImmediate(s.queue)
    requires Plain(p) && p.priority != Immediately
    ensures NoImmediate(Request(s, p, Success).queue)
    ensures HeadInFlight(Request(s, p, Success)) <==> p.priority != High || s.atReq.None?
  {
    var t := Request(s, p, Success);
    if p.priority == High {
      PushHigh(s, p);
      assert forall i :: 1 <= i < |t.queue| ==> t.queue[i] == s.queue[i - 1];
      if s.atReq.Some? {
        assert t.queue[1].sent;
      }
    } else {
      PushOrdinary(s, p);
    }
  }

  /** A HIGH request that overtakes the one in flight is given its response, without being sent. */
  lemma HighTakesOthersResponse(s: State, p: Pending)
    requires HeadInFlight(s) && NoImmediate(s.queue) && s.atReq.Some?
    requires Plain(p) && p.priority == High
    ensures var t := FinalLine(Request(s, p, Success), [], Success);
      t.log == s.log + [Answered(WithId(s, p))] && t.queue == s.queue && t.atReq.None?
  {
    PushHigh(s, p);
    assert RemoveAt([WithId(s, p)] + s.queue, 0) == s.queue;
  }

  lemma SecondInFlight(t: State)
    requires t.mode == At && NextPending(t.queue) == Some(1) && !t.queue[1].autoFree
    ensures IdleSend(t, Success).state.queue == t.queue[1 := t.queue[1].(sent := true)]
    ensures IdleSend(t, Success).state.mode == At
  {
    hide NextPending;
  }

  /** The state after an IMMEDIATELY request and the next idle send, of whatever was in the queue. */
  function Doubled(s: State, p: Pending): State {
    IdleSend(Request(s, p, Success), Success).state
  }

  lemma DoubledQueue(s: State, p: Pending)
    requires HeadInFlight(s) && NoImmediate(s.queue)
    requires Plain(p) && p.priority == Immediately
    ensures Doubled(s, p).mode == At
    ensures
      var first := WithId(s, p).(sent := true);
      Doubled(s, p).queue ==
        [first] + if s.queue == [] then [] else s.queue[0 := s.queue[0].(sent := true)]
    ensures Doubled(s, p).atReq.Some?
    ensures s.queue == [] ==> Doubled(s, p).atReq == Some(WithId(s, p).id)
  {
    var x := WithId(s, p);
    var sent := x.(sent := true);
    var t := Request(s, p, Success);
    ImmediateSent(s, p, x, sent);
    hide Request, NextPending;
    if s.queue == [] || s.queue[0].sent {
      assert IdleSend(t, Success).state == t;
      assert s.queue != [] ==> s.queue[0 := s.queue[0].(sent := true)] == s.queue;
    } else {
      assert t.queue[1] == s.queue[0] && s.queue[0] in s.queue;
      SecondInFlight(t);
      assert ([sent] + s.queue)[1 := s.queue[0].(sent := true)] == [sent] + s.queue[0 := s.queue[0].(sent := true)];
    }
  }

  /** An IMMEDIATELY request is sent as it is made, and stands first. */
  lemma ImmediateSent(s: State, p: Pending, x: Pending, sent: Pending)
    requires HeadInFlight(s) && NoImmediate(s.queue) && Plain(p) && p.priority == Immediately
    requires x == WithId(s, p) && sent == x.(sent := true)
    ensures
      var t := Request(s, p, Success);
      && t.queue == [sent] + s.queue && t.mode == At && t.atReq == Some(x.id)
      && NextPending(t.queue) == if s.queue != [] && !s.queue[0].sent then Some(1) else None
  {
    ImmediateGoesFirst(s.queue, x, sent);
    hide Insert, NextPending, RemoveAt, NoImmediate;
  }

  /**
    After an IMMEDIATELY request and the next idle send there is one request in flight exactly when
    the queue was empty.
   */
  lemma ImmediateDoublesInFlight(s: State, p: Pending)
    requires HeadInFlight(s) && NoImmediate(s.queue)
    requires Plain(p) && p.priority == Immediately
    ensures HeadInFlight(Doubled(s, p)) <==> s.queue == []
  {
    DoubledQueue(s, p);
    hide Doubled;
    var u := Doubled(s, p);
    if s.queue == [] {
      assert |u.queue| == 1 && !u.queue[0].autoFree;
    } else {
      assert u.queue[1].sent;
    }
  }

  lemma ImmediateGoesFirst(q: Queue, x: Pending, sent: Pending)
    requires NoImmediate(q)
    requires x.priority == Immediately && !x.sent && sent == x.(sent := true)
    ensures Insert(q, x) == [x] + q && NextPending([x] + q) == Some(0)
    ensures ([x] + q)[0 := sent] == [sent] + q
    ensures NextPending([sent] + q) == if q != [] && !q[0].sent then Some(1) else None
  {
    if q != [] {
      assert q[0] in q && q[0].priority != Immediately;
    }
    assert HeadPosition(q) == 0;
    NextBehindSent(q, sent);
    hide HeadPosition, NoImmediate;
    assert ([x] + q)[0] == x;
  }

  lemma NextBehindSent(q: Queue, sent: Pending)
    requires NoImmediate(q) && sent.priority == Immediately && sent.sent
    ensures NextPending([sent] + q) == if q != [] && !q[0].sent then Some(1) else None
  {
    assert ([sent] + q)[1..] == q;
    if q != [] {
      assert q[0] in q && q[0].priority != Immediately;
    }
  }

  lemma IdleSendKeepsHead(s: State)
    requires HeadInFlight(s) && NoImmediate(s.queue)
    ensures HeadInFlight(IdleSend(s, Success).state) && NoImmediate(IdleSend(s, Success).state.queue)
    ensures IdleSend(s, Success).state.nextId == s.nextId
    ensures AnsweredIds(IdleSend(s, Success).state.log) == AnsweredIds(s.log)
  {
    match NextPending(s.queue)
    case None =>
    case Some(i) =>
      assert s.queue[0] in s.queue;
      AnsweredIdsSnoc(s.log, SentOut(s.queue[i].(sent := true)));
  }

  /** A final line is given to the request in flight, and to no other. */
  lemma FinalLineAnswersInFlight(s: State)
    requires HeadInFlight(s) && s.atReq.Some?
    ensures var t := FinalLine(s, [], Success);
      && s.queue != [] && s.queue[0].sent && s.queue[0].id == s.atReq.value
      && t.log == s.log + [Answered(s.queue[0])]
      && t.queue == s.queue[1..]
      && HeadInFlight(t)
  {
    assert RemoveAt(s.queue, 0) == s.queue[1..];
  }

  /** All requests so far, in order: those answered, then those in the queue. */
  predicate InOrder(s: State) {
    && HeadInFlight(s)
    && (forall p :: p in s.queue ==> p.priority == Default || p.priority == Low)
    && var n := |AnsweredIds(s.log)|;
       && (forall i :: 0 <= i < n ==> AnsweredIds(s.log)[i] == i)
       && (forall i :: 0 <= i < |s.queue| ==> s.queue[i].id == n + i)
       && s.nextId == n + |s.queue|
  }

  predicate OrdinaryRequest(p: Pending) {
    Plain(p) && p.id == 0 && (p.priority == Default || p.priority == Low)
  }

  predicate OrdinaryStep(step: Step) {
    match step
    case DoRequest(p) => OrdinaryRequest(p)
    case DoFinal(ps) => forall p :: p in ps ==> OrdinaryRequest(p)
    case _ => true
  }

  lemma RequestInOrder(s: State, p: Pending)
    requires InOrder(s) && OrdinaryRequest(p)
    ensures InOrder(Request(s, p, Success))
  {
    PushOrdinary(s, p);
  }

  lemma {:induction false} RequestAllInOrder(s: State, ps: seq<Pending>)
    requires InOrder(s) && forall p :: p in ps ==> OrdinaryRequest(p)
    ensures InOrder(RequestAll(s, ps, Success))
    decreases |ps|
  {
    hide InOrder, Request;
    if ps == [] {
    } else {
      RequestInOrder(s, ps[0]);
      RequestAllInOrder(Request(s, ps[0], Success), ps[1..]);
    }
  }

  lemma FinalLineInOrder(s: State, ps: seq<Pending>)
    requires InOrder(s) && forall p :: p in ps ==> OrdinaryRequest(p)
    ensures InOrder(FinalLine(s, ps, Success))
  {
    if s.atReq.Some? {
      FinalLineAnswersInFlight(s);
      AnsweredIdsSnoc(s.log, Answered(s.queue[0]));
      var s1 := s.(atReq := None, queue := RemoveAt(s.queue, 0), log := s.log + [Answered(s.queue[0])]);
      assert InOrder(s1);
      RequestAllInOrder(s1, ps);
    }
  }

  lemma IdleSendInOrder(s: State)
    requires InOrder(s)
    ensures InOrder(IdleSend(s, Success).state)
  {
    IdleSendKeepsHead(s);
  }

  lemma NothingToCancel(s: State, command: int, calls: seq<seq<Pending>>)
    requires Cancels(s, command, calls) && !Matches(s.queue, command)
    ensures Cancel(s, command, calls) == s
  {
  }

  lemma StepInOrder(s: State, step: Step)
    requires InOrder(s) && Enabled(s, step) && OrdinaryStep(step)
    ensures InOrder(Take(s, step, Success))
  {
    hide IdleSend, Request, FinalLine, Cancels, Matches;
    match step
    case DoRequest(p) => RequestInOrder(s, p);
    case DoIdle => IdleSendInOrder(s);
    case DoForce => IdleSendInOrder(s);
    case DoRespond(_, _) =>
    case DoFinal(ps) => FinalLineInOrder(s, ps);
    case DoCancel(command, calls) => AtCancels(s, command, calls); NothingToCancel(s, command, calls);
  }

  lemma {:induction false} RunInOrder(s: State, steps: seq<Step>)
    requires InOrder(s) && Runs(s, steps)
    requires forall step :: step in steps ==> OrdinaryStep(step)
    ensures InOrder(Run(s, steps))
    decreases |steps|
  {
    hide InOrder, OrdinaryStep, Take;
    if steps == [] {
    } else {
      assert steps[0] in steps;
      StepInOrder(s, steps[0]);
      RunInOrder(Take(s, steps[0], Success), steps[1..]);
    }
  }

  /**
    In AT mode, with DEFAULT and LOW requests only, no auto-free and successful sends: the engine
    holds a request exactly when the head of the queue is the only sent one, and the n-th accepted
    final response is given to the n-th request made (ids are assigned in that order from zero).
   */
  lemma AtCorrelation(steps: seq<Step>)
    requires Runs(Initial(At), steps)
    requires forall step :: step in steps ==> OrdinaryStep(step)
    ensures var s := Run(Initial(At), steps);
      && HeadInFlight(s)
      && (forall n :: 0 <= n < |AnsweredIds(s.log)| ==> AnsweredIds(s.log)[n] == n)
      && (forall i :: 0 <= i < |s.queue| ==> s.queue[i].id == |AnsweredIds(s.log)| + i)
  {
    RunInOrder(Initial(At), steps);
  }

  // ---------------------------------------------------------------------------------------
  // No lost wake-up in AT mode.
  // ---------------------------------------------------------------------------------------

  /** A queue that is not empty waits for a final line or has an idle send scheduled. */
  predicate Attended(s: State) {
    s.queue == [] || s.idles > 0 || s.atReq.Some?
  }

  lemma IdleSendIsNext(s: State)
    requires InOrder(s)
    ensures
      var t := IdleSend(s, Success);
      && !t.renew && t.state.idles == s.idles
      && (t.state.queue == [] || t.state.atReq.Some?)
  {
    if s.queue != [] {
      assert s.queue[0] in s.queue;
    }
  }

  lemma StepAttended(s: State, step: Step)
    requires InOrder(s) && Attended(s) && Enabled(s, step) && OrdinaryStep(step)
    ensures Attended(Take(s, step, Success))
  {
    match step
    case DoRequest(p) => PushOrdinary(s, p);
    case DoIdle => IdleSendIsNext(s); hide IdleSend;
    case DoForce => IdleSendIsNext(s); hide IdleSend;
    case DoRespond(_, _) =>
    case DoFinal(ps) => hide RequestAll;
    case DoCancel(command, calls) => AtCancels(s, command, calls); NothingToCancel(s, command, calls);
  }

  lemma {:induction false} RunAttended(s: State, steps: seq<Step>)
    requires InOrder(s) && Attended(s) && Runs(s, steps)
    requires forall step :: step in steps ==> OrdinaryStep(step)
    ensures Attended(Run(s, steps))
    decreases |steps|
  {
    hide InOrder, Attended, OrdinaryStep, Take;
    if steps == [] {
    } else {
      assert steps[0] in steps;
      StepInOrder(s, steps[0]);
      StepAttended(s, steps[0]);
      RunAttended(Take(s, steps[0], Success), steps[1..]);
    }
  }

  /**
    No lost wake-up in AT mode, with DEFAULT and LOW requests only, no auto-free and successful sends:
    a queue that is not empty waits for a final line that the engine will take, or has an idle send
    scheduled.
   */
  lemma AtNoLostWakeUp(steps: seq<Step>)
    requires Runs(Initial(At), steps)
    requires forall step :: step in steps ==> OrdinaryStep(step)
    ensures Attended(Run(Initial(At), steps))
  {
    RunAttended(Initial(At), steps);
  }
}
