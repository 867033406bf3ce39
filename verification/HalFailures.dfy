/**
  Sends that fail: the head of the queue is dropped, whichever request it was that failed, and no
  other send is scheduled.
 */
module HalFailures {
  import opened Wrappers
  import opened QueueOrder
  import opened HalRuns
  import opened HalCancel
  import opened HalCorrelation

  lemma SentSkipsOne(q: Queue)
    requires q != []
    ensures AnySent(RemoveAt(q, 0)) <==> exists i :: 1 <= i < |q| && q[i].sent
  {
    var t := RemoveAt(q, 0);
    if AnySent(t) {
      var i :| 0 <= i < |t| && t[i].sent;
      assert q[i + 1].sent;
    }
    if i :| 1 <= i < |q| && q[i].sent {
      assert t[i - 1].sent;
    }
  }

  /** The queue after the send of entry i has failed. */
  function AfterFailure(q: Queue, i: nat): Queue
    requires i < |q|
  {
    RemoveAt(q[i := q[i].(sent := true)], 0)
  }

  lemma FailedSend(s: State, i: nat)
    requires NextPending(s.queue) == Some(i) && !s.queue[i].autoFree
    ensures IdleSend(s, Failure).state.queue == AfterFailure(s.queue, i)
    ensures IdleSend(s, Failure).state.log == s.log && !IdleSend(s, Failure).renew
    ensures IdleSend(s, Failure).state.idles == s.idles
  {
    hide NextPending;
  }

  /**
    After a failed send the queue still waits or is still served exactly when the failed request
    stood behind one that is sent, was the only one, another idle send is scheduled, or another entry
    is sent: a caller can check it before.
   */
  lemma FailedSendStaysAwake(s: State, i: nat)
    requires s.idles > 0 && NextPending(s.queue) == Some(i) && !s.queue[i].autoFree
    ensures Awake(RunIdle(s, Failure))
      <==> i > 0 || |s.queue| == 1 || s.idles > 1 || exists j :: 1 <= j < |s.queue| && s.queue[j].sent
  {
    FailedSend(s, i);
    hide IdleSend, NextPending;
    var q := s.queue[i := s.queue[i].(sent := true)];
    SentSkipsOne(q);
    if i == 0 {
      assert (exists j :: 1 <= j < |q| && q[j].sent) <==> exists j :: 1 <= j < |s.queue| && s.queue[j].sent by {
        assert forall j :: 1 <= j < |q| ==> q[j] == s.queue[j];
      }
    } else {
      assert q[i].sent;
    }
  }

  /**
    With distinct ids, a failed send drops the request that it could not send exactly when nothing
    stood before it. Otherwise it drops the IMMEDIATELY request at the head, which was sent and waits
    for its response, and leaves the failed one marked as sent although it never was.
   */
  lemma FailedSendDropsItsOwn(s: State, i: nat)
    requires DistinctIds(s.queue) && NextPending(s.queue) == Some(i) && !s.queue[i].autoFree
    ensures
      var q := IdleSend(s, Failure).state.queue;
      && ((forall p <- q :: p.id != s.queue[i].id) <==> i == 0)
      && (i > 0 ==>
            && s.queue[0].sent && s.queue[0].priority == Immediately
            && (forall p <- q :: p.id != s.queue[0].id)
            && s.queue[i].(sent := true) in q)
      && IdleSend(s, Failure).state.log == s.log
  {
    FailedSend(s, i);
    hide IdleSend;
    var marked := s.queue[i := s.queue[i].(sent := true)];
    var q := AfterFailure(s.queue, i);
    assert forall j :: 0 <= j < |q| ==> q[j].id == s.queue[j + 1].id;
    if i > 0 {
      assert q[i - 1] == marked[i];
    }
  }

  /**
    In AT mode a failed send takes the request out of the queue while the engine keeps it, so that the
    next final line is given to another: engine and queue stay in step exactly when nothing was sent.
   */
  lemma FailedSendInAtMode(s: State)
    requires HeadInFlight(s) && NoImmediate(s.queue)
    ensures HeadInFlight(IdleSend(s, Failure).state) <==> NextPending(s.queue).None?
    ensures NextPending(s.queue).Some? ==>
      var t := IdleSend(s, Failure).state;
      && t.queue == s.queue[1..] && t.atReq == Some(s.queue[0].id)
      && (t.queue != [] ==> FinalLine(t, [], Success).log == s.log + [Answered(s.queue[1])] && !s.queue[1].sent)
  {
    match NextPending(s.queue)
    case None =>
    case Some(i) =>
      assert s.queue[0] in s.queue;
      FailedSend(s, i);
      assert i == 0 && AfterFailure(s.queue, 0) == s.queue[1..];
  }

  // ---------------------------------------------------------------------------------------
  // What follows a failed send.
  // ---------------------------------------------------------------------------------------

  /** Nothing is in flight, nothing is scheduled, and the queue is not empty. */
  predicate Stranded(s: State) {
    s.queue != [] && s.idles == 0 && !AnySent(s.queue)
  }

  predicate QuietStep(step: Step) {
    (step.DoRequest? && step.p.priority != Immediately) || step.DoIdle?
  }

  /** A stranded queue stays so over every run of ordinary requests and scheduled idle sends. */
  lemma {:induction false} StrandedStays(s: State, steps: seq<Step>)
    requires Stranded(s) && Runs(s, steps) && forall step <- steps :: QuietStep(step)
    ensures Stranded(Run(s, steps)) && Run(s, steps).log == s.log
    ensures forall p <- s.queue :: p in Run(s, steps).queue
    decreases |steps|
  {
    if steps == [] {
    } else {
      var step := steps[0];
      assert step in steps && QuietStep(step) && step.DoRequest?;
      RequestStranded(s, step.p);
      hide Stranded, Request;
      StrandedStays(Take(s, step, Success), steps[1..]);
    }
  }

  lemma RequestStranded(s: State, p: Pending)
    requires Stranded(s) && !p.sent && p.priority != Immediately
    ensures Stranded(Request(s, p, Success)) && Request(s, p, Success).log == s.log
    ensures forall x <- s.queue :: x in Request(s, p, Success).queue
  {
    var x := if p.id == 0 then p.(id := s.nextId) else p;
    InsertElements(s.queue, x);
    hide Insert;
    var t := Push(s, p);
    assert forall i :: 0 <= i < |t.queue| ==> t.queue[i] in t.queue;
    assert forall i :: 0 <= i < |s.queue| ==> s.queue[i] in s.queue;
    assert forall y <- s.queue :: !y.sent;
  }

  /**
    Two ordinary requests, and the send of the first fails: the second is not sent in any run of
    ordinary requests and scheduled idle sends. A forced send would send it.
   */
  lemma FailedSendLosesWakeUp(a: Pending, b: Pending, steps: seq<Step>)
    requires a.priority == Default && b.priority == Default && !a.sent && !b.sent && !a.autoFree
    ensures
      var s := Request(Request(Initial(Custom), a, Success), b, Success);
      var t := RunIdle(s, Failure);
      && s.idles == 1 && s.log == [] && !Awake(t) && t.queue == s.queue[1..]
      && (Runs(t, steps) && (forall step <- steps :: QuietStep(step)) ==>
            Run(t, steps).log == [] && s.queue[1] in Run(t, steps).queue)
      && IdleSend(t, Success).state.log == [SentOut(s.queue[1].(sent := true))]
  {
    var s := Request(Request(Initial(Custom), a, Success), b, Success);
    var t := RunIdle(s, Failure);
    TwoRequests(a, b);
    hide Request, IdleSend, Run, Runs, Take;
    assert Stranded(t);
    if Runs(t, steps) && forall step <- steps :: QuietStep(step) {
      StrandedStays(t, steps);
      assert t.queue[0] in t.queue;
    }
  }

  lemma TwoRequests(a: Pending, b: Pending)
    requires a.priority == Default && b.priority == Default && !a.sent && !b.sent && !a.autoFree
    ensures
      var s := Request(Request(Initial(Custom), a, Success), b, Success);
      var t := RunIdle(s, Failure);
      && s.idles == 1 && s.log == [] && |s.queue| == 2 && !s.queue[1].sent
      && t.queue == [s.queue[1]] && t.idles == 0 && t.log == []
      && IdleSend(t, Success).state.log == [SentOut(s.queue[1].(sent := true))]
  {
    var s1 := Request(Initial(Custom), a, Success);
    assert s1.queue == [a] && s1.idles == 1;
    var s := Request(s1, b, Success);
    assert s.queue == [a, s.queue[1]];
    FailedSend(s, 0);
    assert AfterFailure(s.queue, 0) == [s.queue[1]];
  }

  /** An entry that is no IMMEDIATELY one is marked as sent at the head of the queue. */
  predicate Blocked(s: State) {
    s.queue != [] && s.queue[0].sent && s.queue[0].priority != Immediately
  }

  /** Behind such a head nothing is sent, scheduled, forced or requested ordinarily. */
  lemma {:induction false} BlockedStays(s: State, steps: seq<Step>)
    requires Blocked(s) && Runs(s, steps)
    requires forall step <- steps ::
      step.DoIdle? || step.DoForce? || (step.DoRequest? && step.p.priority in {Default, Low})
    ensures Blocked(Run(s, steps)) && Run(s, steps).queue[0] == s.queue[0] && Run(s, steps).log == s.log
    decreases |steps|
  {
    if steps == [] {
    } else {
      assert steps[0] in steps;
      assert NextPending(s.queue) == None;
      BlockedStays(Take(s, steps[0], Success), steps[1..]);
    }
  }

  /**
    A send that a hook stops leaves its request marked as sent, although it was not: nothing is logged and
    nothing scheduled, and an ordinary request at the head holds up everything behind it in every run of
    ordinary requests, idle sends and forced sends.
   */
  lemma StoppedSendBlocks(s: State, i: nat, steps: seq<Step>)
    requires NextPending(s.queue) == Some(i)
    ensures
      var t := IdleSend(s, HookStop);
      && !t.renew && t.state.log == s.log && t.state.idles == s.idles && t.state.nextId == s.nextId
      && t.state.queue == s.queue[i := s.queue[i].(sent := true)]
      && (i == 0 && s.queue[0].priority != Immediately && Runs(t.state, steps)
          && (forall step <- steps ::
                step.DoIdle? || step.DoForce? || (step.DoRequest? && step.p.priority in {Default, Low})) ==>
            Run(t.state, steps).log == s.log)
  {
    hide NextPending, Run, Runs;
    var t := IdleSend(s, HookStop).state;
    if i == 0 && s.queue[0].priority != Immediately && Runs(t, steps)
      && forall step <- steps ::
           step.DoIdle? || step.DoForce? || (step.DoRequest? && step.p.priority in {Default, Low})
    {
      assert Blocked(t);
      BlockedStays(t, steps);
    }
  }

  /** An auto-free request leaves the queue as it goes out, sent or not, and the idle send asks to run again. */
  lemma AutoFreeLeaves(s: State, i: nat, r: SendResult)
    requires NextPending(s.queue) == Some(i) && s.queue[i].autoFree && r != HookStop
    ensures
      var t := IdleSend(s, r);
      && t.renew && t.state.queue == s.queue[..i] + s.queue[i + 1..]
      && t.state.log == s.log + (if r == Success then [SentOut(s.queue[i].(sent := true))] else [])
      && t.state.idles == s.idles && (s.idles > 0 ==> RunIdle(s, r).idles == s.idles)
  {
    hide NextPending;
  }

  /** A request that goes out stays in the queue, marked, and the idle send does not ask to run again. */
  lemma SentStays(s: State, i: nat)
    requires NextPending(s.queue) == Some(i) && !s.queue[i].autoFree
    ensures
      var t, p := IdleSend(s, Success), s.queue[i].(sent := true);
      && !t.renew && t.state.queue == s.queue[i := p] && t.state.log == s.log + [SentOut(p)]
      && t.state.atReq == (if s.mode == At then Some(p.id) else s.atReq)
      && t.state.idles == s.idles && (s.idles > 0 ==> RunIdle(s, Success).idles == s.idles - 1)
  {
    hide NextPending;
  }

  /**
    The failing input: a DEFAULT request waits for its idle send, an IMMEDIATELY one is sent at once,
    and then the idle send fails. The response to the IMMEDIATELY request finds nobody, and the
    DEFAULT one, never sent, holds up all ordinary requests, while the queue looks as if it waited.
   */
  lemma FailedSendBehindImmediate(a: Pending, c: Pending)
    requires a.priority == Default && c.priority == Immediately && !a.sent && !c.sent && !a.autoFree && !c.autoFree
    requires a.id == 0 && c.id == 0
    ensures
      var s := Request(Request(Initial(Custom), a, Success), c, Success);
      var t := RunIdle(s, Failure);
      && s.idles == 1 && s.log == [SentOut(c.(id := 1, sent := true))]
      && t.queue == [a.(sent := true)] && t.log == s.log && Awake(t)
      && Respond(t, 1, [], Success) == t
      && Blocked(t)
  {
    var s1 := Request(Initial(Custom), a, Success);
    assert s1.queue == [a];
    var x := c.(id := 1);
    var s := Request(s1, c, Success);
    ImmediateFirst(a, x, x.(sent := true));
    assert s.queue == [x.(sent := true), a] && s.idles == 1;
    FailedSend(s, 1);
    assert AfterFailure(s.queue, 1) == [a.(sent := true)];
    var t := RunIdle(s, Failure);
    assert FirstWith(t.queue, HasId(1)) == None;
    assert t.queue[0].sent;
  }

  lemma ImmediateFirst(a: Pending, x: Pending, sent: Pending)
    requires a.priority == Default && x.priority == Immediately && !a.sent && !x.sent && sent == x.(sent := true)
    ensures Insert([a], x) == [x, a] && NextPending([x, a]) == Some(0) && NextPending([sent, a]) == Some(1)
    ensures [x, a][0 := sent] == [sent, a]
  {
    assert [sent, a][1..] == [a];
  }
}
