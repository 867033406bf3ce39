/**
  AT mode with two requests in flight: what becomes of the second one.
 */
module HalInFlight {
  import opened Wrappers
  import opened QueueOrder
  import opened HalRuns
  import opened HalCancel
  import opened HalCorrelation

  /**
    The sent entry x at place k, ordinary or HIGH, is not the one that the AT engine holds: the engine
    holds none, or another sent entry stands before it. No entry is auto-free.
   */
  predicate Stuck(s: State, k: nat, x: Pending) {
    && s.mode == At
    && k < |s.queue| && s.queue[k] == x && x.sent && x.priority != Immediately
    && (forall p <- s.queue :: !p.autoFree)
    && (s.atReq.Some? ==> AnySent(s.queue[..k]))
  }

  /** How often a final line has been given to the request with the id. */
  function Times(log: seq<Event>, id: nat): nat {
    multiset(AnsweredIds(log))[id]
  }

  lemma TimesSnoc(log: seq<Event>, e: Event, id: nat)
    ensures Times(log + [e], id) == Times(log, id) + if e.Answered? && e.p.id == id then 1 else 0
  {
    AnsweredIdsSnoc(log, e);
  }

  /** Only an entry before x is sent. */
  lemma StuckSend(s: State, k: nat, x: Pending)
    requires Stuck(s, k, x)
    ensures Stuck(IdleSend(s, Success).state, k, x)
    ensures Times(IdleSend(s, Success).state.log, x.id) == Times(s.log, x.id)
    ensures !IdleSend(s, Success).renew
  {
    match NextPending(s.queue)
    case None =>
    case Some(i) =>
      assert i < k;
      var p := s.queue[i].(sent := true);
      var q := s.queue[i := p];
      assert s.queue[i] in s.queue;
      assert q[..k][i].sent;
      assert forall y <- q :: y in s.queue || y == p;
      TimesSnoc(s.log, SentOut(p), x.id);
      hide NextPending, Times;
  }

  /** A new entry is put before x or behind it. */
  lemma StuckPush(s: State, k: nat, x: Pending, p: Pending) returns (m: nat)
    requires Stuck(s, k, x) && Plain(p)
    ensures Stuck(Push(s, p), m, x)
  {
    var y := WithId(s, p);
    var n := if p.priority == Immediately || p.priority == High then HeadPosition(s.queue) else |s.queue|;
    var t := Push(s, p);
    assert t.queue == InsertAt(s.queue, n, y);
    InsertElements(s.queue, y);
    m := if n <= k then k + 1 else k;
    assert t.queue[m] == x;
    if s.atReq.Some? {
      var j :| 0 <= j < k && s.queue[..k][j].sent;
      assert t.queue[..m][if j < n then j else j + 1] == s.queue[j];
    }
  }

  lemma StuckRequest(s: State, k: nat, x: Pending, p: Pending) returns (m: nat)
    requires Stuck(s, k, x) && Plain(p)
    ensures Stuck(Request(s, p, Success), m, x)
    ensures Times(Request(s, p, Success).log, x.id) == Times(s.log, x.id)
  {
    m := StuckPush(s, k, x, p);
    StuckSend(Push(s, p), m, x);
    hide IdleSend, Insert, Times;
  }

  lemma {:induction false} StuckRequestAll(s: State, k: nat, x: Pending, ps: seq<Pending>) returns (m: nat)
    requires Stuck(s, k, x) && forall p <- ps :: Plain(p)
    ensures Stuck(RequestAll(s, ps, Success), m, x)
    ensures Times(RequestAll(s, ps, Success).log, x.id) == Times(s.log, x.id)
    decreases |ps|
  {
    hide Stuck, Request, Times;
    if ps == [] {
      m := k;
    } else {
      m := StuckRequest(s, k, x, ps[0]);
      m := StuckRequestAll(Request(s, ps[0], Success), m, x, ps[1..]);
    }
  }

  /** A final line is given to an entry before x. */
  lemma StuckFinal(s: State, k: nat, x: Pending, ps: seq<Pending>) returns (m: nat)
    requires Stuck(s, k, x) && DistinctIds(s.queue) && forall p <- ps :: Plain(p)
    ensures Stuck(FinalLine(s, ps, Success), m, x)
    ensures Times(FinalLine(s, ps, Success).log, x.id) == Times(s.log, x.id)
  {
    m := k;
    if s.atReq.Some? {
      var left := RemoveAt(s.queue, 0);
      var s1 := s.(atReq := None, queue := left, log := s.log + [Answered(s.queue[0])]);
      RemoveElements(s.queue, 0);
      TimesSnoc(s.log, Answered(s.queue[0]), x.id);
      assert Stuck(s1, k - 1, x);
      hide Stuck, RequestAll, Times;
      m := StuckRequestAll(s1, k - 1, x, ps);
      StuckScheduled(RequestAll(s1, ps, Success), m, x);
    }
  }

  lemma StuckScheduled(s: State, k: nat, x: Pending)
    requires Stuck(s, k, x)
    ensures Stuck(s.(idles := s.idles + 1), k, x)
    ensures Stuck(s.(idles := if s.idles > 0 then s.idles - 1 else 0), k, x)
  {
  }

  /** Every request that the step makes is unsent, not auto-free, and leaves its id to the queue. */
  predicate PlainStep(step: Step) {
    match step
    case DoRequest(p) => Plain(p) && p.id == 0
    case DoFinal(ps) => forall p <- ps :: Plain(p) && p.id == 0
    case _ => true
  }

  lemma FinalLineAssigned(s: State, ps: seq<Pending>)
    requires AssignedIds(s) && forall p <- ps :: p.id == 0
    ensures AssignedIds(FinalLine(s, ps, Success))
  {
    if s.atReq.Some? {
      if s.queue == [] {
        RequestAllAssigned(s.(atReq := None), ps, Success);
      } else {
        RemoveElements(s.queue, 0);
        var s1 := s.(atReq := None, queue := RemoveAt(s.queue, 0), log := s.log + [Answered(s.queue[0])]);
        assert AssignedIds(s1);
        RequestAllAssigned(s1, ps, Success);
      }
    }
  }

  lemma StuckStep(s: State, k: nat, x: Pending, step: Step) returns (m: nat)
    requires Stuck(s, k, x) && AssignedIds(s) && Enabled(s, step) && PlainStep(step)
    ensures Stuck(Take(s, step, Success), m, x) && AssignedIds(Take(s, step, Success))
    ensures Times(Take(s, step, Success).log, x.id) == Times(s.log, x.id)
  {
    assert s.mode == At && DistinctIds(s.queue);
    hide IdleSend, Request, FinalLine, Cancels, Matches, Times, Stuck, AssignedIds;
    m := k;
    match step
    case DoRequest(p) =>
      m := StuckRequest(s, k, x, p);
      RequestAssigned(s, p, Success);
    case DoIdle =>
      StuckSend(s, k, x);
      IdleSendAssigned(s, Success);
      StuckScheduled(IdleSend(s, Success).state, k, x);
      SameIds(IdleSend(s, Success).state, RunIdle(s, Success));
    case DoForce =>
      StuckSend(s, k, x);
      IdleSendAssigned(s, Success);
    case DoRespond(_, _) =>
    case DoFinal(ps) =>
      m := StuckFinal(s, k, x, ps);
      FinalLineAssigned(s, ps);
    case DoCancel(command, calls) =>
      AtCancels(s, command, calls);
      NothingToCancel(s, command, calls);
  }

  /**
    Over every run of requests of any priority, idle and forced sends, and final lines whose callbacks
    make requests of their own, an entry that is stuck stays in the queue, marked as sent, and is given
    no final line, as long as no request is auto-free.
   */
  lemma {:induction false} StuckStays(s: State, k: nat, x: Pending, steps: seq<Step>)
    requires Stuck(s, k, x) && AssignedIds(s)
    requires Runs(s, steps) && forall step <- steps :: PlainStep(step)
    ensures x in Run(s, steps).queue && Times(Run(s, steps).log, x.id) == Times(s.log, x.id)
    decreases |steps|
  {
    if steps == [] {
    } else {
      hide Stuck, AssignedIds, PlainStep, Take, Times;
      assert steps[0] in steps;
      var m := StuckStep(s, k, x, steps[0]);
      StuckStays(Take(s, steps[0], Success), m, x, steps[1..]);
    }
  }

  lemma DoubledAnswers(s: State, p: Pending)
    requires HeadInFlight(s) && NoImmediate(s.queue)
    ensures AnsweredIds(Doubled(s, p).log) == AnsweredIds(s.log)
  {
    SendAnswers(Push(s, p));
    SendAnswers(Request(s, p, Success));
    assert Request(s, p, Success).log == IdleSend(Push(s, p), Success).state.log
      || Request(s, p, Success).log == Push(s, p).log;
    hide IdleSend, NextPending, Insert;
  }

  lemma DoubledAssigned(s: State, p: Pending)
    requires AssignedIds(s) && p.id == 0
    ensures AssignedIds(Doubled(s, p))
  {
    hide Request, IdleSend, AssignedIds;
    RequestAssigned(s, p, Success);
    IdleSendAssigned(Request(s, p, Success), Success);
  }

  lemma StuckBehind(u: State, first: Pending, q: Queue, x: Pending)
    requires u.mode == At && q != [] && NoImmediate(q) && x == q[0].(sent := true) && first.sent && !first.autoFree
    requires u.queue == [first] + q[0 := x] && forall y <- q :: !y.autoFree
    ensures Stuck(u, 1, x)
  {
    assert u.queue[..1][0] == first && u.queue[1] == x && q[0] in q;
    assert forall y <- u.queue :: y == first || y == x || y in q;
  }

  lemma DoubledStuck(s: State, p: Pending)
    requires HeadInFlight(s) && NoImmediate(s.queue) && s.queue != [] && AssignedIds(s)
    requires Plain(p) && p.priority == Immediately && p.id == 0
    ensures Stuck(Doubled(s, p), 1, s.queue[0].(sent := true)) && AssignedIds(Doubled(s, p))
    ensures AnsweredIds(Doubled(s, p).log) == AnsweredIds(s.log)
  {
    DoubledQueue(s, p);
    DoubledAssigned(s, p);
    DoubledAnswers(s, p);
    hide Doubled, AssignedIds, NoImmediate, Stuck;
    StuckBehind(Doubled(s, p), WithId(s, p).(sent := true), s.queue, s.queue[0].(sent := true));
  }

  /**
    The harm of an IMMEDIATELY request into a queue that is not empty: the entry that stood at its head
    is sent beside it, and no final line is given to it in any run that follows, whatever the priorities,
    as long as no request is auto-free.
   */
  lemma SecondInFlightIsNeverAnswered(s: State, p: Pending, steps: seq<Step>)
    requires HeadInFlight(s) && NoImmediate(s.queue) && s.queue != [] && AssignedIds(s)
    requires Plain(p) && p.priority == Immediately && p.id == 0
    requires Runs(Doubled(s, p), steps) && forall step <- steps :: PlainStep(step)
    ensures
      var x, t := s.queue[0].(sent := true), Run(Doubled(s, p), steps);
      x in t.queue && Times(t.log, x.id) == Times(s.log, x.id)
  {
    DoubledStuck(s, p);
    hide Doubled, Run, Runs, AssignedIds, Stuck;
    StuckStays(Doubled(s, p), 1, s.queue[0].(sent := true), steps);
  }

  /**
    An auto-free request of IMMEDIATELY priority is what frees such an entry: the engine keeps the
    request that has left the queue, and the final line for it is given to the head.
   */
  lemma AutoFreeAnswersStuck(s: State, x: Pending, c: Pending)
    requires Stuck(s, 0, x) && NoImmediate(s.queue)
    requires c.priority == Immediately && c.autoFree && !c.sent
    ensures
      var t := FinalLine(Request(s, c, Success), [], Success);
      && t.queue == s.queue[1..]
      && t.log == s.log + [SentOut(WithId(s, c).(sent := true)), Answered(x)]
  {
    var y := WithId(s, c);
    var sent := y.(sent := true);
    ImmediateGoesFirst(s.queue, y, sent);
    hide Insert, NextPending;
    assert RemoveAt([sent] + s.queue, 0) == s.queue;
    var u := Request(s, c, Success);
    assert u.queue == s.queue && u.atReq.Some? && u.log == s.log + [SentOut(sent)];
    assert RemoveAt(s.queue, 0) == s.queue[1..];
  }

  /** With nothing else in the queue, the final line for an auto-free request answers nobody. */
  lemma AutoFreeAlone(s: State, c: Pending)
    requires s.mode == At && s.queue == [] && c.priority == Immediately && c.autoFree && !c.sent
    ensures
      var sent := WithId(s, c).(sent := true);
      var t := Request(s, c, Success);
      && t.queue == [] && t.atReq == Some(sent.id) && t.log == s.log + [SentOut(sent)] && t.idles == s.idles
      && FinalLine(t, [], Success) == t.(atReq := None, idles := s.idles + 1)
  {
    var y := WithId(s, c);
    ImmediateGoesFirst([], y, y.(sent := true));
    assert NoImmediate([]);
    hide NextPending;
    assert [y] + [] == [y] && RemoveAt([y.(sent := true)], 0) == [];
  }
}
