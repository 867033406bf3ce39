/**
  CUSTOM mode: identities of pending requests, and the cancellation of all requests with a command.
 */
module HalCancel {
  import opened Wrappers
  import opened QueueOrder
  import opened HalRuns

  predicate DistinctIds(q: Queue) {
    forall i, j :: 0 <= i < j < |q| ==> q[i].id != q[j].id
  }

  /** Ids were all assigned by the queue, in increasing order. */
  predicate AssignedIds(s: State) {
    && DistinctIds(s.queue)
    && forall p :: p in s.queue ==> p.id < s.nextId
  }

  function Those(q: Queue, f: Pending -> bool): Queue {
    if q == [] then [] else (if f(q[0]) then [q[0]] else []) + Those(q[1..], f)
  }

  function Others(q: Queue, f: Pending -> bool): Queue {
    if q == [] then [] else (if f(q[0]) then [] else [q[0]]) + Others(q[1..], f)
  }

  function Answers(q: Queue): seq<Event> {
    seq(|q|, i requires 0 <= i < |q| => Answered(q[i]))
  }

  lemma InsertDistinct(q: Queue, p: Pending)
    requires DistinctIds(q) && forall x :: x in q ==> x.id != p.id
    ensures DistinctIds(Insert(q, p))
  {
    var all := Insert(q, p);
    var n := if p.priority == Immediately || p.priority == High then HeadPosition(q) else |q|;
    assert q + [p] == InsertAt(q, |q|, p);
    forall i, j | 0 <= i < j < |all| ensures all[i].id != all[j].id {
      assert i < n ==> all[i] == q[i];
      assert i > n ==> all[i] == q[i - 1];
      assert j < n ==> all[j] == q[j];
      assert j > n ==> all[j] == q[j - 1];
    }
  }

  lemma IdleSendAssigned(s: State, r: SendResult)
    requires AssignedIds(s)
    ensures AssignedIds(IdleSend(s, r).state)
  {
    hide NextPending;
    match NextPending(s.queue)
    case None =>
    case Some(i) =>
      var q := s.queue[i := s.queue[i].(sent := true)];
      assert forall k :: 0 <= k < |q| ==> q[k].id == s.queue[k].id;
      assert forall p :: p in q ==> p.id < s.nextId;
  }

  lemma RequestAssigned(s: State, p: Pending, r: SendResult)
    requires AssignedIds(s) && p.id == 0
    ensures AssignedIds(Request(s, p, r))
  {
    var x := p.(id := s.nextId);
    InsertDistinct(s.queue, x);
    InsertElements(s.queue, x);
    assert AssignedIds(Push(s, p));
    IdleSendAssigned(Push(s, p), r);
  }

  lemma {:induction false} RequestAllAssigned(s: State, ps: seq<Pending>, r: SendResult)
    requires AssignedIds(s) && forall p :: p in ps ==> p.id == 0
    ensures AssignedIds(RequestAll(s, ps, r))
    decreases |ps|
  {
    if ps == [] {
    } else {
      RequestAssigned(s, ps[0], r);
      RequestAllAssigned(Request(s, ps[0], r), ps[1..], r);
    }
  }

  lemma RespondAssigned(s: State, id: nat, ps: seq<Pending>, r: SendResult)
    requires AssignedIds(s) && forall p :: p in ps ==> p.id == 0
    ensures AssignedIds(Respond(s, id, ps, r))
  {
    match FirstWith(s.queue, HasId(id))
    case None =>
    case Some(i) =>
      RemoveElements(s.queue, i);
      var s1 := s.(queue := RemoveAt(s.queue, i), log := s.log + [Answered(s.queue[i])]);
      assert AssignedIds(s1);
      RequestAllAssigned(s1, ps, r);
  }

  lemma {:induction false} CancelAssigned(s: State, command: int, calls: seq<seq<Pending>>)
    requires AssignedIds(s) && s.mode == Custom && Cancels(s, command, calls)
    requires forall ps <- calls, p <- ps :: p.id == 0
    ensures AssignedIds(Cancel(s, command, calls)) && Cancel(s, command, calls).mode == Custom
    decreases |calls|
  {
    hide AssignedIds;
    if !Matches(s.queue, command) {
    } else {
      assert calls[0] in calls;
      var id := s.queue[FirstWith(s.queue, HasCommand(command)).value].id;
      RespondAssigned(s, id, calls[0], Success);
      RespondMode(s, id, calls[0]);
      CancelAssigned(CancelTurn(s, command, calls[0]), command, calls[1..]);
    }
  }

  predicate AutoStep(step: Step) {
    match step
    case DoRequest(p) => p.id == 0
    case DoRespond(_, ps) => forall p :: p in ps ==> p.id == 0
    case DoCancel(_, calls) => forall ps <- calls, p <- ps :: p.id == 0
    case _ => true
  }

  lemma StepAssigned(s: State, step: Step)
    requires AssignedIds(s) && s.mode == Custom && Enabled(s, step) && AutoStep(step)
    ensures AssignedIds(Take(s, step, Success)) && Take(s, step, Success).mode == Custom
  {
    hide AssignedIds;
    match step
    case DoRequest(p) => RequestAssigned(s, p, Success);
    case DoIdle => IdleSendAssigned(s, Success); SameIds(IdleSend(s, Success).state, RunIdle(s, Success));
    case DoForce => IdleSendAssigned(s, Success);
    case DoRespond(id, ps) => RespondAssigned(s, id, ps, Success); RespondMode(s, id, ps);
    case DoFinal(_) =>
    case DoCancel(command, calls) => CancelAssigned(s, command, calls);
  }

  lemma SameIds(s: State, t: State)
    requires AssignedIds(s) && s.queue == t.queue && s.nextId == t.nextId
    ensures AssignedIds(t)
  {
  }

  lemma {:induction false} RequestAllMode(s: State, ps: seq<Pending>)
    ensures RequestAll(s, ps, Success).mode == s.mode
    decreases |ps|
  {
    if ps == [] {
    } else {
      RequestAllMode(Request(s, ps[0], Success), ps[1..]);
    }
  }

  lemma RespondMode(s: State, id: nat, ps: seq<Pending>)
    ensures Respond(s, id, ps, Success).mode == s.mode
  {
    match FirstWith(s.queue, HasId(id))
    case None =>
    case Some(i) =>
      RequestAllMode(s.(queue := RemoveAt(s.queue, i), log := s.log + [Answered(s.queue[i])]), ps);
  }

  lemma {:induction false} RunAssigned(s: State, steps: seq<Step>)
    requires AssignedIds(s) && s.mode == Custom && Runs(s, steps)
    requires forall step :: step in steps ==> AutoStep(step)
    ensures AssignedIds(Run(s, steps)) && Run(s, steps).mode == Custom
    decreases |steps|
  {
    hide AssignedIds, AutoStep, Take;
    if steps == [] {
    } else {
      assert steps[0] in steps;
      StepAssigned(s, steps[0]);
      RunAssigned(Take(s, steps[0], Success), steps[1..]);
    }
  }

  lemma {:induction false} FirstOfThose(q: Queue, f: Pending -> bool, i: nat)
    requires i < |q| && f(q[i]) && forall j :: 0 <= j < i ==> !f(q[j])
    ensures Those(q, f) == [q[i]] + Those(RemoveAt(q, i), f)
    ensures Others(q, f) == Others(RemoveAt(q, i), f)
    decreases i
  {
    if i == 0 {
      assert RemoveAt(q, 0) == q[1..];
    } else {
      var rest := RemoveAt(q, i);
      assert rest[0] == q[0] && rest[1..] == RemoveAt(q[1..], i - 1);
      FirstOfThose(q[1..], f, i - 1);
    }
  }

  lemma {:induction false} NoneOfThose(q: Queue, f: Pending -> bool)
    requires forall i :: 0 <= i < |q| ==> !f(q[i])
    ensures Those(q, f) == [] && Others(q, f) == q
  {
    if q == [] {
    } else {
      NoneOfThose(q[1..], f);
    }
  }

  lemma RemoveDistinct(q: Queue, i: nat)
    requires DistinctIds(q) && i < |q|
    ensures DistinctIds(RemoveAt(q, i))
  {
    var r := RemoveAt(q, i);
    assert forall k :: 0 <= k < |r| ==> r[k] == q[if k < i then k else k + 1];
  }

  /** With distinct ids a response removes exactly the entry it names. */
  lemma RespondExactly(s: State, i: nat)
    requires DistinctIds(s.queue) && i < |s.queue|
    ensures Respond(s, s.queue[i].id, [], Success)
      == s.(queue := RemoveAt(s.queue, i), log := s.log + [Answered(s.queue[i])], idles := s.idles + 1)
  {
    var id := s.queue[i].id;
    var n := FirstWith(s.queue, HasId(id));
    assert HasId(id)(s.queue[i]);
    assert n.Some? && s.queue[n.value].id == id;
  }

  /** The state in which the entries chosen have been answered, in order, and the others kept. */
  function AllAnswered(s: State, f: Pending -> bool): State {
    var gone := Those(s.queue, f);
    s.(queue := Others(s.queue, f), log := s.log + Answers(gone), idles := s.idles + |gone|)
  }

  lemma OneAnswered(s: State, f: Pending -> bool, i: nat)
    requires i < |s.queue| && f(s.queue[i]) && forall j :: 0 <= j < i ==> !f(s.queue[j])
    ensures var next := s.(queue := RemoveAt(s.queue, i), log := s.log + [Answered(s.queue[i])], idles := s.idles + 1);
      AllAnswered(next, f) == AllAnswered(s, f)
  {
    FirstOfThose(s.queue, f, i);
    hide RemoveAt, Those, Others;
    var gone := Those(RemoveAt(s.queue, i), f);
    assert s.log + [Answered(s.queue[i])] + Answers(gone) == s.log + Answers([s.queue[i]] + gone);
  }

  /** Cancelling with callbacks that request nothing. */
  lemma {:induction false} CancelDistinct(s: State, command: int, calls: seq<seq<Pending>>)
    requires s.mode == Custom && DistinctIds(s.queue) && Cancels(s, command, calls)
    requires forall ps <- calls :: ps == []
    ensures Cancel(s, command, calls) == AllAnswered(s, HasCommand(command))
    decreases |calls|
  {
    var f := HasCommand(command);
    match FirstWith(s.queue, f)
    case None =>
      NoneOfThose(s.queue, f);
      assert s.log + Answers([]) == s.log;
    case Some(i) =>
      var next := s.(queue := RemoveAt(s.queue, i), log := s.log + [Answered(s.queue[i])], idles := s.idles + 1);
      assert CancelTurn(s, command, calls[0]) == next by {
        assert calls[0] in calls;
        RespondExactly(s, i);
      }
      RemoveDistinct(s.queue, i);
      OneAnswered(s, f, i);
      hide FirstWith, DistinctIds, RemoveAt, AllAnswered, CancelTurn, HasCommand;
      assert forall ps <- calls[1..] :: ps in calls;
      CancelDistinct(next, command, calls[1..]);
  }

  // ---------------------------------------------------------------------------------------
  // When the cancelling loop ends, if the callbacks request nothing.
  // ---------------------------------------------------------------------------------------

  /** The callbacks of n turns, none of which requests anything. */
  function Silent(n: nat): seq<seq<Pending>> {
    seq(n, _ => [])
  }

  lemma SilentTurnShrinks(s: State, command: int)
    requires s.mode == Custom && Matches(s.queue, command)
    ensures CancelTurn(s, command, []).mode == Custom
    ensures |CancelTurn(s, command, []).queue| < |s.queue|
  {
    var i := FirstWith(s.queue, HasCommand(command)).value;
    assert HasId(s.queue[i].id)(s.queue[i]);
  }

  /** With ids of any kind, in CUSTOM mode each turn takes one entry out of the queue. */
  lemma {:induction false} CustomCancels(s: State, command: int, n: nat)
    requires s.mode == Custom && |s.queue| <= n
    ensures Cancels(s, command, Silent(n))
    decreases n
  {
    hide CancelTurn;
    if !Matches(s.queue, command) {
    } else {
      SilentTurnShrinks(s, command);
      assert Silent(n)[1..] == Silent(n - 1);
      CustomCancels(CancelTurn(s, command, []), command, n - 1);
    }
  }

  /**
    If the callbacks request nothing, cancelling a command comes to an end exactly in CUSTOM mode or
    when no pending request has the command: in AT mode a single match makes the loop run for ever.
   */
  lemma CancelEnds(s: State, command: int)
    ensures (exists n :: Cancels(s, command, Silent(n))) <==> s.mode == Custom || !Matches(s.queue, command)
  {
    if s.mode == Custom {
      CustomCancels(s, command, |s.queue|);
    } else {
      forall n
        ensures Cancels(s, command, Silent(n)) <==> !Matches(s.queue, command)
      {
        AtCancels(s, command, Silent(n));
      }
      assert !Matches(s.queue, command) ==> Cancels(s, command, Silent(0));
    }
  }
}
