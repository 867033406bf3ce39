/**
  Cancelling requests whose callbacks make requests themselves: when the loop ends, and what it
  leaves behind.
 */
module HalCallbacks {
  import opened Wrappers
  import opened QueueOrder
  import opened HalRuns
  import opened HalCancel
  import Order = HalCorrelation

  // ---------------------------------------------------------------------------------------
  // IMMEDIATELY entries stay in front.
  // ---------------------------------------------------------------------------------------

  predicate Fronted(q: Queue) {
    forall i, j :: 0 <= i < j < |q| && q[j].priority == Immediately ==> q[i].priority == Immediately
  }

  lemma InsertFronted(q: Queue, p: Pending)
    requires Fronted(q)
    ensures Fronted(Insert(q, p))
  {
    var all, n := Insert(q, p), HeadPosition(q);
    if p.priority == Immediately || p.priority == High {
      assert forall i :: 0 <= i < n ==> all[i] == q[i];
      assert forall i :: n < i < |all| ==> all[i] == q[i - 1];
      assert forall i :: n <= i < |q| ==> q[i].priority != Immediately;
    }
  }

  lemma RemoveFronted(q: Queue, i: nat)
    requires Fronted(q) && i < |q|
    ensures Fronted(RemoveAt(q, i))
  {
    var r := RemoveAt(q, i);
    assert forall k :: 0 <= k < |r| ==> r[k] == q[if k < i then k else k + 1];
  }

  lemma IdleSendFronted(s: State, r: SendResult)
    requires Fronted(s.queue)
    ensures Fronted(IdleSend(s, r).state.queue)
  {
    hide NextPending, RemoveAt;
    match NextPending(s.queue)
    case None =>
    case Some(i) =>
      var q := s.queue[i := s.queue[i].(sent := true)];
      assert forall k :: 0 <= k < |q| ==> q[k].priority == s.queue[k].priority;
      assert Fronted(q);
      RemoveFronted(q, i);
      RemoveFronted(q, 0);
  }

  lemma RequestFronted(s: State, p: Pending, r: SendResult)
    requires Fronted(s.queue)
    ensures Fronted(Request(s, p, r).queue)
  {
    InsertFronted(s.queue, if p.id == 0 then p.(id := s.nextId) else p);
    IdleSendFronted(Push(s, p), r);
    hide IdleSend, Insert, Fronted;
  }

  lemma {:induction false} RequestAllFronted(s: State, ps: seq<Pending>, r: SendResult)
    requires Fronted(s.queue)
    ensures Fronted(RequestAll(s, ps, r).queue)
    decreases |ps|
  {
    if ps == [] {
    } else {
      RequestFronted(s, ps[0], r);
      RequestAllFronted(Request(s, ps[0], r), ps[1..], r);
    }
  }

  lemma RespondFronted(s: State, id: nat, ps: seq<Pending>, r: SendResult)
    requires Fronted(s.queue)
    ensures Fronted(Respond(s, id, ps, r).queue)
  {
    hide RemoveAt, RequestAll;
    match FirstWith(s.queue, HasId(id))
    case None =>
    case Some(i) =>
      RemoveFronted(s.queue, i);
      RequestAllFronted(s.(queue := RemoveAt(s.queue, i), log := s.log + [Answered(s.queue[i])]), ps, r);
  }

  lemma FinalLineFronted(s: State, ps: seq<Pending>, r: SendResult)
    requires Fronted(s.queue)
    ensures Fronted(FinalLine(s, ps, r).queue)
  {
    hide RemoveAt, RequestAll;
    if s.queue == [] {
      RequestAllFronted(s.(atReq := None), ps, r);
    } else {
      RemoveFronted(s.queue, 0);
      var left := RemoveAt(s.queue, 0);
      RequestAllFronted(s.(atReq := None, queue := left, log := s.log + [Answered(s.queue[0])]), ps, r);
    }
  }

  lemma {:induction false} CancelFronted(s: State, command: int, calls: seq<seq<Pending>>)
    requires Fronted(s.queue) && Cancels(s, command, calls)
    ensures Fronted(Cancel(s, command, calls).queue)
    decreases |calls|
  {
    hide Respond, Fronted;
    if !Matches(s.queue, command) {
    } else {
      RespondFronted(s, s.queue[FirstWith(s.queue, HasCommand(command)).value].id, calls[0], Success);
      CancelFronted(CancelTurn(s, command, calls[0]), command, calls[1..]);
    }
  }

  lemma StepFronted(s: State, step: Step)
    requires Fronted(s.queue) && Enabled(s, step)
    ensures Fronted(Take(s, step, Success).queue)
  {
    hide IdleSend, Request, Respond, FinalLine, Cancel, Fronted;
    match step
    case DoRequest(p) => RequestFronted(s, p, Success);
    case DoIdle => IdleSendFronted(s, Success);
    case DoForce => IdleSendFronted(s, Success);
    case DoRespond(id, ps) => RespondFronted(s, id, ps, Success);
    case DoFinal(ps) => FinalLineFronted(s, ps, Success);
    case DoCancel(command, calls) => CancelFronted(s, command, calls);
  }

  lemma {:induction false} RunFronted(s: State, steps: seq<Step>)
    requires Fronted(s.queue) && Runs(s, steps)
    ensures Fronted(Run(s, steps).queue)
    decreases |steps|
  {
    hide Fronted, Take;
    if steps == [] {
    } else {
      StepFronted(s, steps[0]);
      RunFronted(Take(s, steps[0], Success), steps[1..]);
    }
  }

  // ---------------------------------------------------------------------------------------
  // What requests add to the queue.
  // ---------------------------------------------------------------------------------------

  /** An auto-free request of IMMEDIATELY priority is sent and dropped as it is made. */
  predicate Stays(p: Pending) {
    p.priority != Immediately || !p.autoFree
  }

  function Joined(q: Queue, x: Pending): Queue {
    if x.priority != Immediately then Insert(q, x)
    else if x.autoFree then q
    else Insert(q, x.(sent := true))
  }

  /** The queue after the requests ps, with ids from n on. */
  function Joins(q: Queue, n: nat, ps: seq<Pending>): Queue
    decreases |ps|
  {
    if ps == [] then q else Joins(Joined(q, ps[0].(id := n)), n + 1, ps[1..])
  }

  /** As callbacks make them: unsent, and with the id left to the queue. */
  predicate Fresh(ps: seq<Pending>) {
    forall p <- ps :: p.id == 0 && !p.sent
  }

  lemma SendJoins(s: State, x: Pending)
    requires Settled(s) && x.priority == Immediately && !x.sent
    ensures IdleSend(s.(queue := Insert(s.queue, x)), Success).state.queue == Joined(s.queue, x)
  {
    ImmediateInsert(s.queue, x, x.(sent := true));
    hide Insert, RemoveAt, NextPending, HeadPosition, Settled;
  }

  lemma IdleSendQueue(s: State, t: State)
    requires s.queue == t.queue
    ensures IdleSend(s, Success).state.queue == IdleSend(t, Success).state.queue
  {
    hide NextPending, RemoveAt;
  }

  lemma RequestJoins(s: State, p: Pending)
    requires Settled(s) && p.id == 0 && !p.sent
    ensures
      var t := Request(s, p, Success);
      && Settled(t)
      && t.queue == Joined(s.queue, p.(id := s.nextId)) && t.nextId == s.nextId + 1
      && Order.AnsweredIds(t.log) == Order.AnsweredIds(s.log)
  {
    RequestAwake(s, p);
    hide Insert, Settled, Order.AnsweredIds, IdleSend;
    if p.priority == Immediately {
      var x := p.(id := s.nextId);
      SendJoins(s, x);
      IdleSendQueue(s.(queue := Insert(s.queue, x)), Push(s, p));
      Order.SendAnswers(Push(s, p));
    }
  }

  lemma {:induction false} RequestAllJoins(s: State, ps: seq<Pending>)
    requires Settled(s) && Fresh(ps)
    ensures
      var t := RequestAll(s, ps, Success);
      && Settled(t)
      && t.queue == Joins(s.queue, s.nextId, ps) && t.nextId == s.nextId + |ps|
      && Order.AnsweredIds(t.log) == Order.AnsweredIds(s.log)
    decreases |ps|
  {
    hide Settled, Request, Joined, Order.AnsweredIds;
    if ps == [] {
    } else {
      RequestJoins(s, ps[0]);
      RequestAllJoins(Request(s, ps[0], Success), ps[1..]);
    }
  }

  lemma {:induction false} JoinsSplit(q: Queue, n: nat, a: seq<Pending>, b: seq<Pending>)
    ensures Joins(q, n, a + b) == Joins(Joins(q, n, a), n + |a|, b)
    decreases |a|
  {
    hide Joined;
    if a == [] {
      assert a + b == b;
    } else {
      assert (a + b)[1..] == a[1..] + b;
      JoinsSplit(Joined(q, a[0].(id := n)), n + 1, a[1..], b);
    }
  }

  lemma Regroup(a: Queue, b: Queue, c: Queue)
    ensures a + (b + c) == (a + b) + c
  {
  }

  lemma FirstPiece(a: Queue, b: Queue, f: Pending -> bool)
    requires a != []
    ensures Those(a + b, f) == (if f(a[0]) then [a[0]] else []) + Those(a[1..] + b, f)
    ensures Others(a + b, f) == (if f(a[0]) then [] else [a[0]]) + Others(a[1..] + b, f)
  {
    assert (a + b)[1..] == a[1..] + b;
  }

  lemma {:induction false} Pieces(a: Queue, b: Queue, f: Pending -> bool)
    ensures Those(a + b, f) == Those(a, f) + Those(b, f)
    ensures Others(a + b, f) == Others(a, f) + Others(b, f)
    decreases |a|
  {
    if a == [] {
      assert a + b == b;
    } else {
      FirstPiece(a, b, f);
      FirstPiece(a, [], f);
      Pieces(a[1..], b, f);
      assert a + [] == a && a[1..] + [] == a[1..];
      hide Those, Others;
      Regroup(if f(a[0]) then [a[0]] else [], Those(a[1..], f), Those(b, f));
      Regroup(if f(a[0]) then [] else [a[0]], Others(a[1..], f), Others(b, f));
    }
  }

  lemma {:induction false} OthersElements(q: Queue, f: Pending -> bool)
    ensures forall x <- Others(q, f) :: x in q
  {
    if q == [] {
    } else {
      OthersElements(q[1..], f);
    }
  }

  /** A request is put between two parts of the queue. */
  lemma InsertSplit(q: Queue, x: Pending) returns (a: Queue, b: Queue)
    ensures q == a + b && Insert(q, x) == a + [x] + b
  {
    var n := if x.priority == Immediately || x.priority == High then HeadPosition(q) else |q|;
    a, b := q[..n], q[n..];
  }

  lemma OnePiece(x: Pending, f: Pending -> bool)
    ensures Those([x], f) == if f(x) then [x] else []
    ensures Others([x], f) == if f(x) then [] else [x]
  {
    assert [x][1..] == [];
  }

  lemma PiecesAround(a: Queue, x: Pending, b: Queue, f: Pending -> bool)
    ensures Those(a + [x] + b, f) == Those(a, f) + (if f(x) then [x] else []) + Those(b, f)
    ensures Others(a + [x] + b, f) == Others(a, f) + (if f(x) then [] else [x]) + Others(b, f)
  {
    Pieces(a, [x], f);
    Pieces(a + [x], b, f);
    OnePiece(x, f);
    hide Those, Others;
  }

  lemma InsertThose(q: Queue, x: Pending, f: Pending -> bool)
    ensures |Those(Insert(q, x), f)| == |Those(q, f)| + if f(x) then 1 else 0
    ensures !f(x) ==> Those(Insert(q, x), f) == Those(q, f)
  {
    hide Those, Others, Insert;
    var a, b := InsertSplit(q, x);
    Pieces(a, b, f);
    PiecesAround(a, x, b, f);
  }

  lemma OthersFronted(a: Queue, b: Queue, f: Pending -> bool)
    requires forall p <- a :: p.priority == Immediately
    requires forall p <- b :: p.priority != Immediately
    ensures HeadPosition(Others(a, f) + Others(b, f)) == |Others(a, f)|
  {
    hide Others, HeadPosition;
    OthersElements(a, f);
    OthersElements(b, f);
    var left, right := Others(a, f), Others(b, f);
    assert forall i :: 0 <= i < |left| ==> left[i] in left;
    assert forall i :: 0 <= i < |right| ==> right[i] in right;
    HeadPositionIs(left, right);
  }

  lemma InsertIs(q: Queue, x: Pending, a: Queue, b: Queue)
    requires q == a + b && |a| == HeadPosition(q)
    ensures Insert(q, x) == if x.priority == Immediately || x.priority == High then a + [x] + b else q + [x]
  {
    hide HeadPosition;
    assert q[..|a|] == a && q[|a|..] == b;
  }

  lemma InsertOthers(q: Queue, x: Pending, f: Pending -> bool)
    requires Fronted(q) && !f(x)
    ensures Others(Insert(q, x), f) == Insert(Others(q, f), x)
  {
    var n := HeadPosition(q);
    var a, b := q[..n], q[n..];
    assert q == a + b;
    assert forall i :: n <= i < |q| ==> q[i].priority != Immediately;
    OthersFronted(a, b, f);
    hide *;
    Pieces(a, b, f);
    InsertIs(q, x, a, b);
    InsertIs(Others(q, f), x, Others(a, f), Others(b, f));
    PiecesAround(a, x, b, f);
    Pieces(q, [x], f);
    OnePiece(x, f);
    assert [] + Others(b, f) == Others(b, f);
  }

  function AsksFor(command: int): Pending -> bool {
    (p: Pending) => p.command == command && Stays(p)
  }

  lemma JoinedThose(q: Queue, x: Pending, command: int)
    requires Fronted(q)
    ensures Fronted(Joined(q, x))
    ensures
      var f := HasCommand(command);
      && |Those(Joined(q, x), f)| == |Those(q, f)| + (if AsksFor(command)(x) then 1 else 0)
      && (!AsksFor(command)(x) ==>
            && Those(Joined(q, x), f) == Those(q, f)
            && Others(Joined(q, x), f) == Joined(Others(q, f), x))
  {
    var f := HasCommand(command);
    var sent := x.(sent := true);
    InsertFronted(q, x);
    InsertFronted(q, sent);
    InsertThose(q, x, f);
    InsertThose(q, sent, f);
    if !f(x) {
      InsertOthers(q, x, f);
      InsertOthers(q, sent, f);
    }
    hide Insert, Fronted, Those, Others;
  }

  lemma JoinsFirst(q: Queue, n: nat, ps: seq<Pending>, command: int)
    requires ps != []
    ensures Joins(q, n, ps) == Joins(Joined(q, ps[0].(id := n)), n + 1, ps[1..])
    ensures
      var g := AsksFor(command);
      && g(ps[0].(id := n)) == g(ps[0])
      && |Those(ps, g)| == (if g(ps[0]) then 1 else 0) + |Those(ps[1..], g)|
  {
    hide Joined;
  }

  lemma {:induction false} JoinsThose(q: Queue, n: nat, ps: seq<Pending>, command: int)
    requires Fronted(q)
    ensures
      var f, g := HasCommand(command), AsksFor(command);
      && |Those(Joins(q, n, ps), f)| == |Those(q, f)| + |Those(ps, g)|
      && (Those(ps, g) == [] ==>
            && Those(Joins(q, n, ps), f) == Those(q, f)
            && Others(Joins(q, n, ps), f) == Joins(Others(q, f), n, ps))
    decreases |ps|
  {
    if ps == [] {
    } else {
      var x := ps[0].(id := n);
      JoinedThose(q, x, command);
      JoinsFirst(q, n, ps, command);
      JoinsFirst(Others(q, HasCommand(command)), n, ps, command);
      hide Joined, Joins, Fronted, Those, Others, AsksFor, HasCommand;
      JoinsThose(Joined(q, x), n + 1, ps[1..], command);
    }
  }

  // ---------------------------------------------------------------------------------------
  // One turn.
  // ---------------------------------------------------------------------------------------

  predicate Ready(s: State) {
    AssignedIds(s) && Settled(s) && Fronted(s.queue)
  }

  lemma TurnRequests(s: State, command: int, ps: seq<Pending>, i: nat, s1: State)
    requires DistinctIds(s.queue) && s.mode == Custom && FirstWith(s.queue, HasCommand(command)) == Some(i)
    requires s1 == s.(queue := RemoveAt(s.queue, i), log := s.log + [Answered(s.queue[i])])
    ensures
      var t := RequestAll(s1, ps, Success);
      CancelTurn(s, command, ps) == t.(idles := t.idles + 1)
  {
    hide RequestAll, RemoveAt, FirstWith;
    assert FirstWith(s.queue, HasId(s.queue[i].id)) == Some(i) by {
      assert HasId(s.queue[i].id)(s.queue[i]);
    }
  }

  lemma ReadyWithout(s: State, i: nat, s1: State)
    requires Ready(s) && i < |s.queue|
    requires s1 == s.(queue := RemoveAt(s.queue, i), log := s.log + [Answered(s.queue[i])])
    ensures Ready(s1)
  {
    RemoveElements(s.queue, i);
    RemoveFronted(s.queue, i);
    RemoveDistinct(s.queue, i);
    hide Fronted, DistinctIds, RemoveAt;
  }

  lemma ReadyAs(t: State, u: State)
    requires AssignedIds(t) && Settled(t) && Fronted(t.queue) && u == t.(idles := t.idles + 1)
    ensures Ready(u)
  {
  }

  lemma ReadyRequests(s: State, ps: seq<Pending>)
    requires Ready(s) && Fresh(ps)
    ensures
      var t := RequestAll(s, ps, Success);
      && Ready(t.(idles := t.idles + 1))
      && t.queue == Joins(s.queue, s.nextId, ps) && t.nextId == s.nextId + |ps|
      && Order.AnsweredIds(t.log) == Order.AnsweredIds(s.log)
  {
    hide Settled, Fronted, Joins, RequestAll, Order.AnsweredIds;
    RequestAllJoins(s, ps);
    RequestAllAssigned(s, ps, Success);
    RequestAllFronted(s, ps, Success);
    hide AssignedIds;
    var t := RequestAll(s, ps, Success);
    ReadyAs(t, t.(idles := t.idles + 1));
  }

  lemma Turn(s: State, command: int, ps: seq<Pending>)
    requires Ready(s) && Matches(s.queue, command) && Fresh(ps)
    ensures
      var i, t := FirstWith(s.queue, HasCommand(command)).value, CancelTurn(s, command, ps);
      && Ready(t)
      && t.queue == Joins(RemoveAt(s.queue, i), s.nextId, ps) && t.nextId == s.nextId + |ps|
      && Order.AnsweredIds(t.log) == Order.AnsweredIds(s.log) + [s.queue[i].id]
  {
    assert DistinctIds(s.queue) && s.mode == Custom;
    hide Ready, Fresh, FirstWith, RemoveAt, Joins, RequestAll, Order.AnsweredIds, CancelTurn, DistinctIds;
    var i := FirstWith(s.queue, HasCommand(command)).value;
    var s1 := s.(queue := RemoveAt(s.queue, i), log := s.log + [Answered(s.queue[i])]);
    TurnRequests(s, command, ps, i, s1);
    ReadyWithout(s, i, s1);
    Order.AnsweredIdsSnoc(s.log, Answered(s.queue[i]));
    ReadyRequests(s1, ps);
  }

  lemma TurnThose(s: State, command: int, ps: seq<Pending>)
    requires Ready(s) && Matches(s.queue, command) && Fresh(ps)
    ensures
      var f, g, t := HasCommand(command), AsksFor(command), CancelTurn(s, command, ps);
      && Those(s.queue, f) != [] && Those(s.queue, f)[0] == s.queue[FirstWith(s.queue, f).value]
      && |Those(t.queue, f)| == |Those(s.queue, f)| - 1 + |Those(ps, g)|
      && (Those(ps, g) == [] ==>
            && Those(t.queue, f) == Those(s.queue, f)[1..]
            && Others(t.queue, f) == Joins(Others(s.queue, f), s.nextId, ps))
  {
    var f := HasCommand(command);
    var i := FirstWith(s.queue, f).value;
    Turn(s, command, ps);
    FirstOfThose(s.queue, f, i);
    RemoveFronted(s.queue, i);
    JoinsThose(RemoveAt(s.queue, i), s.nextId, ps, command);
    hide CancelTurn, Those, Others, RemoveAt, Joins, AssignedIds, Settled, Fronted;
  }

  // ---------------------------------------------------------------------------------------
  // The loop.
  // ---------------------------------------------------------------------------------------

  /** All requests that the callbacks of the turns make, in order. */
  function Made(calls: seq<seq<Pending>>): seq<Pending> {
    if calls == [] then [] else calls[0] + Made(calls[1..])
  }

  /** After m turns as many matches are answered as there were and came. */
  predicate Balanced(q: Queue, command: int, calls: seq<seq<Pending>>, m: nat) {
    && m <= |calls|
    && |Those(q, HasCommand(command))| + |Those(Made(calls[..m]), AsksFor(command))| == m
  }

  lemma NoMatch(q: Queue, command: int)
    ensures Matches(q, command) <==> Those(q, HasCommand(command)) != []
  {
    var f := HasCommand(command);
    match FirstWith(q, f)
    case None => NoneOfThose(q, f);
    case Some(i) => FirstOfThose(q, f, i);
  }

  lemma BalancedTurn(s: State, command: int, calls: seq<seq<Pending>>, m: nat)
    requires Ready(s) && Matches(s.queue, command) && calls != [] && Fresh(calls[0])
    ensures !Balanced(s.queue, command, calls, 0)
    ensures Balanced(s.queue, command, calls, m + 1)
      <==> Balanced(CancelTurn(s, command, calls[0]).queue, command, calls[1..], m)
  {
    NoMatch(s.queue, command);
    TurnThose(s, command, calls[0]);
    hide Those, CancelTurn, Ready, Matches;
    if m < |calls| {
      assert calls[..m + 1][1..] == calls[1..][..m];
      Pieces(calls[0], Made(calls[1..][..m]), AsksFor(command));
    }
  }

  lemma BalancedLater(q: Queue, r: Queue, command: int, calls: seq<seq<Pending>>)
    requires calls != [] && !Balanced(q, command, calls, 0)
    requires forall m: nat :: Balanced(r, command, calls[1..], m) <==> Balanced(q, command, calls, m + 1)
    ensures (exists m: nat :: Balanced(q, command, calls, m)) <==> exists m: nat :: Balanced(r, command, calls[1..], m)
  {
    hide Balanced;
    if m: nat :| Balanced(q, command, calls, m) {
      assert m > 0;
      assert Balanced(r, command, calls[1..], m - 1);
    }
  }

  /**
    Exactly when the cancelling loop ends, whatever the callbacks request on being told: after some
    number of turns, as many requests with the command must have been answered as were pending and
    as the callbacks have made since.
   */
  lemma {:induction false} CancelsExactly(s: State, command: int, calls: seq<seq<Pending>>)
    requires Ready(s) && forall ps <- calls :: Fresh(ps)
    ensures Cancels(s, command, calls) <==> exists m: nat :: Balanced(s.queue, command, calls, m)
    decreases |calls|
  {
    hide Ready, Matches, CancelTurn, Fresh, Balanced;
    if !Matches(s.queue, command) {
      BalancedAtOnce(s.queue, command, calls);
    } else if calls == [] {
      UnbalancedAtOnce(s.queue, command);
    } else {
      var t, rest := CancelTurn(s, command, calls[0]), calls[1..];
      assert forall ps <- rest :: ps in calls;
      assert calls[0] in calls;
      Turn(s, command, calls[0]);
      CancelsExactly(t, command, rest);
      forall m: nat
        ensures Balanced(t.queue, command, rest, m) <==> Balanced(s.queue, command, calls, m + 1)
      {
        BalancedTurn(s, command, calls, m);
      }
      assert !Balanced(s.queue, command, calls, 0) by { BalancedTurn(s, command, calls, 0); }
      BalancedLater(s.queue, t.queue, command, calls);
    }
  }

  lemma BalancedAtOnce(q: Queue, command: int, calls: seq<seq<Pending>>)
    requires !Matches(q, command)
    ensures Balanced(q, command, calls, 0)
  {
    NoMatch(q, command);
  }

  lemma UnbalancedAtOnce(q: Queue, command: int)
    requires Matches(q, command)
    ensures forall m: nat :: !Balanced(q, command, [], m)
  {
    NoMatch(q, command);
  }

  // ---------------------------------------------------------------------------------------
  // Callbacks that do not ask for the command, and callbacks that do.
  // ---------------------------------------------------------------------------------------

  /** None of the callbacks leaves a new request with the command. */
  predicate Elsewhere(calls: seq<seq<Pending>>, command: int) {
    forall ps <- calls, p <- ps :: !AsksFor(command)(p)
  }

  lemma ElsewhereMade(calls: seq<seq<Pending>>, command: int)
    requires Elsewhere(calls, command)
    ensures forall ps <- calls :: Those(ps, AsksFor(command)) == []
  {
    forall ps <- calls
      ensures Those(ps, AsksFor(command)) == []
    {
      assert forall i :: 0 <= i < |ps| ==> ps[i] in ps;
      NoneOfThose(ps, AsksFor(command));
    }
  }

  function Ids(q: Queue): seq<nat> {
    seq(|q|, i requires 0 <= i < |q| => q[i].id)
  }

  lemma {:induction false} ElsewhereLoop(s: State, command: int, calls: seq<seq<Pending>>)
    requires Ready(s) && (forall ps <- calls :: Fresh(ps)) && Elsewhere(calls, command)
    ensures
      var f := HasCommand(command);
      var n := |Those(s.queue, f)|;
      && (Cancels(s, command, calls) <==> n <= |calls|)
      && (Cancels(s, command, calls) ==>
            var t := Cancel(s, command, calls);
            && Order.AnsweredIds(t.log) == Order.AnsweredIds(s.log) + Ids(Those(s.queue, f))
            && t.queue == Joins(Others(s.queue, f), s.nextId, Made(calls[..n])))
    decreases |calls|
  {
    var f := HasCommand(command);
    NoMatch(s.queue, command);
    hide Ready, Fresh, CancelTurn, Joins, Those, Others, Order.AnsweredIds, Settled;
    if !Matches(s.queue, command) {
      NoMatchKept(s.queue, command, s.nextId);
      assert calls[..0] == [];
    } else if calls == [] {
    } else {
      var t, rest, n := CancelTurn(s, command, calls[0]), calls[1..], |Those(s.queue, f)|;
      assert forall ps <- rest :: ps in calls;
      assert calls[0] in calls;
      Turn(s, command, calls[0]);
      TurnThose(s, command, calls[0]);
      ElsewhereMade(calls, command);
      hide Elsewhere, Matches;
      ElsewhereLoop(t, command, rest);
      var q := Those(s.queue, f);
      assert Ids(q) == [q[0].id] + Ids(q[1..]);
      if n <= |calls| {
        assert calls[..n][0] == calls[0] && calls[..n][1..] == rest[..n - 1];
        JoinsSplit(Others(s.queue, f), s.nextId, calls[0], Made(rest[..n - 1]));
      }
    }
  }

  lemma NoMatchKept(q: Queue, command: int, n: nat)
    requires !Matches(q, command)
    ensures Others(q, HasCommand(command)) == q && Joins(q, n, []) == q
  {
    NoneOfThose(q, HasCommand(command));
  }

  /**
    If no callback leaves a new request with the command, the loop takes one turn for each pending
    match and ends. Each of them has then been answered once, in queue order, and the queue is what it
    would be if they had been taken out first and the requests of the callbacks been made afterwards.
   */
  lemma CancelElsewhere(s: State, command: int, calls: seq<seq<Pending>>)
    requires Ready(s) && (forall ps <- calls :: Fresh(ps)) && Elsewhere(calls, command)
    ensures
      var f := HasCommand(command);
      var n := |Those(s.queue, f)|;
      && (Cancels(s, command, calls) <==> n <= |calls|)
      && (Cancels(s, command, calls) ==>
            var t := Cancel(s, command, calls);
            && Order.AnsweredIds(t.log) == Order.AnsweredIds(s.log) + Ids(Those(s.queue, f))
            && t.queue == RequestAll(s.(queue := Others(s.queue, f)), Made(calls[..n]), Success).queue)
  {
    ElsewhereLoop(s, command, calls);
    var f := HasCommand(command);
    var n := |Those(s.queue, f)|;
    if n <= |calls| {
      OthersElements(s.queue, f);
      MadeFresh(calls[..n]);
      RequestAllJoins(s.(queue := Others(s.queue, f)), Made(calls[..n]));
    }
  }

  lemma {:induction false} MadeFresh(calls: seq<seq<Pending>>)
    requires forall ps <- calls :: Fresh(ps)
    ensures Fresh(Made(calls))
    decreases |calls|
  {
    if calls == [] {
    } else {
      assert calls[0] in calls && forall ps <- calls[1..] :: ps in calls;
      MadeFresh(calls[1..]);
    }
  }

  /** If every callback leaves a new request with the command, a single match makes the loop run for ever. */
  lemma {:induction false} EchoNeverEnds(s: State, command: int, calls: seq<seq<Pending>>)
    requires Ready(s) && forall ps <- calls :: Fresh(ps)
    requires forall ps <- calls :: exists p :: p in ps && AsksFor(command)(p)
    requires Matches(s.queue, command)
    ensures !Cancels(s, command, calls)
    decreases |calls|
  {
    if calls == [] {
    } else {
      var ps, t, f := calls[0], CancelTurn(s, command, calls[0]), HasCommand(command);
      assert ps in calls;
      Turn(s, command, ps);
      TurnThose(s, command, ps);
      SomeOfThose(ps, AsksFor(command));
      NoMatch(t.queue, command);
      hide Ready, Matches, Fresh, CancelTurn, Those;
      assert forall rest <- calls[1..] :: rest in calls;
      EchoNeverEnds(t, command, calls[1..]);
    }
  }

  lemma {:induction false} SomeOfThose(q: Queue, f: Pending -> bool)
    requires exists p :: p in q && f(p)
    ensures Those(q, f) != []
  {
    if q == [] {
    } else if f(q[0]) {
    } else {
      SomeOfThose(q[1..], f);
    }
  }

  /**
    The failing input: one pending request, whose callback makes it again on being told that it was
    cancelled. However many turns the loop takes, it has not ended.
   */
  lemma EchoedRequest(a: Pending, n: nat)
    requires a.id == 0 && !a.sent && a.priority == Default
    ensures !Cancels(Request(Initial(Custom), a, Success), a.command, seq(n, _ => [a]))
  {
    var s := Request(Initial(Custom), a, Success);
    assert s.queue == [a];
    assert HasCommand(a.command)(s.queue[0]);
    assert AsksFor(a.command)(a) && a in [a];
    EchoNeverEnds(s, a.command, seq(n, _ => [a]));
  }

  /**
    In every state of a CUSTOM-mode run in which ids were assigned by the queue, requests cancelled
    and callbacks asking for more: when the loop ends, and what it leaves.
   */
  lemma CancelAnswersExactlyOnce(steps: seq<Step>, command: int, calls: seq<seq<Pending>>)
    requires Runs(Initial(Custom), steps)
    requires forall step :: step in steps ==> AutoStep(step)
    requires forall ps <- calls :: Fresh(ps)
    ensures
      var s, f := Run(Initial(Custom), steps), HasCommand(command);
      var gone := Those(s.queue, f);
      && DistinctIds(s.queue)
      && (Cancels(s, command, calls) <==> exists m: nat :: Balanced(s.queue, command, calls, m))
      && (Cancels(s, command, calls) && Elsewhere(calls, command) ==>
            var t := Cancel(s, command, calls);
            && Order.AnsweredIds(t.log) == Order.AnsweredIds(s.log) + Ids(gone) && |gone| <= |calls|
            && t.queue == RequestAll(s.(queue := Others(s.queue, f)), Made(calls[..|gone|]), Success).queue)
  {
    var s := Run(Initial(Custom), steps);
    RunAssigned(Initial(Custom), steps);
    RunAwake(Initial(Custom), steps);
    RunFronted(Initial(Custom), steps);
    CancelsExactly(s, command, calls);
    hide Run, Runs, Settled, Fronted, Balanced, Fresh;
    if Elsewhere(calls, command) {
      CancelElsewhere(s, command, calls);
    }
  }
}
