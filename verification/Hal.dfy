/**
  The pending queue and the hardware adapter as objects: requests are shared by reference and
  marked in place, the queue is searched by index.
 */
module Hal {
  import opened Wrappers
  import opened QueueOrder
  import Runs = HalRuns

  class Request {
    var id: nat
    const priority: Priority
    const command: int
    const autoFree: bool
    var flagSent: bool

    constructor (id: nat, priority: Priority, command: int, autoFree: bool)
      ensures Seen() == Pending(id, priority, command, autoFree, false)
    {
      this.id, this.priority, this.command, this.autoFree := id, priority, command, autoFree;
      flagSent := false;
    }

    ghost function Seen(): Pending
      reads this
    {
      Pending(id, priority, command, autoFree, flagSent)
    }
  }

  ghost function SeenAll(rs: seq<Request>): (q: Queue)
    reads rs
    ensures |q| == |rs| && forall i :: 0 <= i < |rs| ==> q[i] == rs[i].Seen()
  {
    seq(|rs|, i requires 0 <= i < |rs| reads rs => rs[i].Seen())
  }

  ghost function SeenEach(calls: seq<seq<Request>>): (r: seq<Queue>)
    reads Every(calls)
    ensures |r| == |calls| && forall j :: 0 <= j < |calls| ==> r[j] == SeenAll(calls[j])
  {
    seq(|calls|, j requires 0 <= j < |calls| reads Every(calls) =>
      assert forall p <- calls[j] :: p in Every(calls); SeenAll(calls[j]))
  }

  ghost function Every(calls: seq<seq<Request>>): set<Request> {
    set j, p | 0 <= j < |calls| && p in calls[j] :: p
  }

  ghost predicate Distinct(rs: seq<Request>) {
    forall i, j :: 0 <= i < j < |rs| ==> rs[i] != rs[j]
  }

  /** The requests of the calls are all different from each other and from rs. */
  ghost predicate Apart(calls: seq<seq<Request>>, rs: seq<Request>) {
    && (forall j :: 0 <= j < |calls| ==> Distinct(calls[j]) && forall p :: p in calls[j] ==> p !in rs)
    && (forall i, j, p :: 0 <= i < j < |calls| && p in calls[i] ==> p !in calls[j])
  }

  lemma PutIn(rs: seq<Request>, i: nat, r: Request)
    requires Distinct(rs) && r !in rs && i <= |rs|
    ensures Distinct(rs[..i] + [r] + rs[i..])
    ensures forall x :: x in rs[..i] + [r] + rs[i..] <==> x in rs || x == r
  {
    assert rs == rs[..i] + rs[i..];
  }

  class RequestQueue {
    var gq: seq<Request>
    var nextId: nat

    constructor ()
      ensures gq == [] && nextId == 0
    {
      gq, nextId := [], 0;
    }

    ghost predicate Valid()
      reads this
    {
      Distinct(gq)
    }

    ghost function Seen(): Queue
      reads this, gq
    {
      SeenAll(gq)
    }

    method SeekHead() returns (i: nat)
      requires Valid()
      ensures i == HeadPosition(Seen())
    {
      ghost var q := Seen();
      i := 0;
      while i < |gq| && gq[i].priority == Immediately
        invariant 0 <= i <= |gq|
        invariant HeadPosition(q) == i + HeadPosition(q[i..])
      {
        assert q[i..][1..] == q[i + 1..];
        i := i + 1;
      }
    }

    /** IMMEDIATELY and HIGH go behind the leading IMMEDIATELY entries. */
    method PushHead(r: Request)
      requires Valid() && r !in gq
      modifies this`gq
      ensures Valid() && Seen() == InsertAt(old(Seen()), HeadPosition(old(Seen())), r.Seen())
      ensures forall x :: x in gq <==> x in old(gq) || x == r
    {
      hide HeadPosition;
      var i := SeekHead();
      PutIn(gq, i, r);
      gq := gq[..i] + [r] + gq[i..];
      assert Seen() == InsertAt(old(Seen()), i, r.Seen());
    }

    method Push(r: Request)
      requires Valid() && r !in gq
      modifies this, r`id
      ensures Valid() && gq != [] && forall x :: x in gq <==> x in old(gq) || x == r
      ensures r.Seen() == (if old(r.id) == 0 then old(r.Seen()).(id := old(nextId)) else old(r.Seen()))
      ensures nextId == (if old(r.id) == 0 then old(nextId) + 1 else old(nextId))
      ensures Seen() == Insert(old(Seen()), r.Seen())
    {
      if r.id == 0 {
        r.id := nextId;
        nextId := nextId + 1;
      }
      assert Seen() == old(Seen());
      if r.priority == Immediately || r.priority == High {
        PushHead(r);
      } else {
        gq := gq + [r];
        assert Seen() == old(Seen()) + [r.Seen()];
      }
    }

    method PopNth(i: nat) returns (r: Request)
      requires Valid() && i < |gq|
      modifies this`gq
      ensures Valid() && r == old(gq)[i] && gq == old(gq)[..i] + old(gq)[i + 1..]
      ensures Seen() == RemoveAt(old(Seen()), i)
      ensures forall x :: x in gq ==> x in old(gq)
    {
      r := gq[i];
      gq := gq[..i] + gq[i + 1..];
      assert Seen() == RemoveAt(old(Seen()), i);
    }

    method PopByPending(r: Request) returns (found: bool)
      requires Valid()
      modifies this`gq
      ensures Valid() && (found <==> r in old(gq))
      ensures !found ==> gq == old(gq)
      ensures forall i :: 0 <= i < |old(gq)| && old(gq)[i] == r ==> Seen() == RemoveAt(old(Seen()), i)
      ensures forall x :: x in gq ==> x in old(gq)
    {
      var i := 0;
      while i < |gq|
        invariant 0 <= i <= |gq|
        invariant r !in gq[..i]
      {
        if gq[i] == r {
          var _ := PopNth(i);
          return true;
        }
        i := i + 1;
      }
      return false;
    }

    method SearchById(id: nat) returns (n: Option<nat>)
      requires Valid()
      ensures n == FirstWith(Seen(), Runs.HasId(id))
    {
      hide FirstWith;
      ghost var q, f := Seen(), Runs.HasId(id);
      var i := 0;
      FirstWithAt(q, f, 0);
      while i < |gq|
        invariant 0 <= i <= |gq|
        invariant FirstWith(q, f) == Shifted(FirstWith(q[i..], f), i)
      {
        FirstWithAt(q, f, i);
        if gq[i].id == id {
          return Some(i);
        }
        i := i + 1;
      }
      FirstWithAt(q, f, i);
      return None;
    }

    method SearchByCommand(command: int) returns (n: Option<nat>)
      requires Valid()
      ensures n == FirstWith(Seen(), Runs.HasCommand(command))
    {
      hide FirstWith;
      ghost var q, f := Seen(), Runs.HasCommand(command);
      var i := 0;
      FirstWithAt(q, f, 0);
      while i < |gq|
        invariant 0 <= i <= |gq|
        invariant FirstWith(q, f) == Shifted(FirstWith(q[i..], f), i)
      {
        FirstWithAt(q, f, i);
        if gq[i].command == command {
          return Some(i);
        }
        i := i + 1;
      }
      FirstWithAt(q, f, i);
      return None;
    }

    method RefNextPending() returns (n: Option<nat>)
      requires Valid()
      ensures n == NextPending(Seen())
    {
      ghost var q := Seen();
      var i := 0;
      while i < |gq| && gq[i].priority == Immediately && gq[i].flagSent
        invariant 0 <= i <= |gq|
        invariant NextPending(q) == Shifted(NextPending(q[i..]), i)
      {
        assert q[i..][1..] == q[i + 1..];
        i := i + 1;
      }
      n := if i == |gq| || gq[i].flagSent then None else Some(i);
    }
  }

  function Shifted(n: Option<nat>, d: nat): Option<nat> {
    match n
    case None => None
    case Some(k) => Some(k + d)
  }

  lemma RequestAllStep(s: Runs.State, ps: Queue, r: Runs.SendResult)
    ensures Runs.RequestAll(s, ps, r) ==
      if ps == [] then s else Runs.RequestAll(Runs.Request(s, ps[0], r), ps[1..], r)
  {
    hide Runs.Request;
  }

  lemma EveryOf(calls: seq<seq<Request>>, ps: seq<Request>)
    requires ps in calls
    ensures forall p <- ps :: p in Every(calls)
  {
  }

  lemma Turned(s: Runs.State, command: int, calls: seq<Queue>)
    requires Runs.Matches(s.queue, command) && Runs.Cancels(s, command, calls)
    ensures calls != []
    ensures
      var t := Runs.CancelTurn(s, command, calls[0]);
      && Runs.Cancels(t, command, calls[1..])
      && Runs.Cancel(s, command, calls) == Runs.Cancel(t, command, calls[1..])
  {
    hide Runs.CancelTurn, Runs.Matches;
  }

  lemma NotTurned(s: Runs.State, command: int, calls: seq<Queue>)
    requires !Runs.Matches(s.queue, command) && Runs.Cancels(s, command, calls)
    ensures Runs.Cancel(s, command, calls) == s
  {
  }

  lemma FirstWithAt(q: Queue, f: Pending -> bool, i: nat)
    requires i <= |q|
    ensures i == |q| ==> FirstWith(q[i..], f) == None
    ensures i < |q| && f(q[i]) ==> FirstWith(q[i..], f) == Some(0)
    ensures i < |q| && !f(q[i]) ==> FirstWith(q[i..], f) == Shifted(FirstWith(q[i + 1..], f), 1)
    ensures q[0..] == q
  {
    if i < |q| {
      assert q[i..][1..] == q[i + 1..];
    }
  }

  class Adapter {
    const queue: RequestQueue
    const mode: Runs.Mode
    var atReq: Option<nat>    // the id of the request that the AT engine holds
    var idles: nat            // idle sends scheduled
    var log: seq<Runs.Event>

    constructor (mode: Runs.Mode)
      ensures Valid() && fresh(queue) && Seen() == Runs.Initial(mode)
    {
      queue := new RequestQueue();
      this.mode := mode;
      atReq, idles, log := None, 0, [];
    }

    ghost predicate Valid()
      reads this, queue
    {
      queue.Valid()
    }

    ghost function Seen(): Runs.State
      reads this, queue, queue.gq
    {
      Runs.State(mode, queue.Seen(), queue.nextId, idles, atReq, log)
    }

    /** The request at place i goes to the line: sent or not, it is marked. */
    method Transmit(i: nat, r: Runs.SendResult)
      requires Valid() && i < |queue.gq|
      modifies this`atReq, this`log, queue.gq[i]
      ensures Valid()
      ensures queue.Seen() == old(queue.Seen())[i := old(queue.Seen())[i].(sent := true)]
      ensures atReq == (if mode == Runs.At then Some(queue.Seen()[i].id) else old(atReq))
      ensures log == (if r == Runs.Success then old(log) + [Runs.SentOut(queue.Seen()[i])] else old(log))
    {
      var p := queue.gq[i];
      if mode == Runs.At {
        atReq := Some(p.id);
      }
      p.flagSent := true;
      assert queue.Seen() == old(queue.Seen())[i := old(queue.Seen())[i].(sent := true)];
      if r == Runs.Success {
        log := log + [Runs.SentOut(Pending(p.id, p.priority, p.command, p.autoFree, p.flagSent))];
      }
    }

    /** r is what the adapter's send operation returns. */
    method IdleSend(r: Runs.SendResult) returns (renew: bool)
      requires Valid()
      modifies this, queue, queue.gq
      ensures Valid() && (forall x :: x in queue.gq ==> x in old(queue.gq))
      ensures var sending := Runs.IdleSend(old(Seen()), r);
        Seen() == sending.state && renew == sending.renew
    {
      hide RemoveAt, NextPending;
      renew := false;
      var next := queue.RefNextPending();
      if next.None? {
        return;
      }
      var p := queue.gq[next.value];
      Transmit(next.value, r);
      if r != Runs.HookStop {
        if p.autoFree {
          var _ := queue.PopByPending(p);
          renew := true;
        } else if r != Runs.Success {
          var _ := queue.PopNth(0);
        }
      }
    }

    method SendRequest(p: Request, r: Runs.SendResult)
      requires Valid() && p !in queue.gq
      modifies this, queue, queue.gq, p
      ensures Valid() && (forall x :: x in queue.gq ==> x in old(queue.gq) || x == p)
      ensures Seen() == Runs.Request(old(Seen()), old(p.Seen()), r)
    {
      queue.Push(p);
      assert Seen() == Runs.Push(old(Seen()), old(p.Seen()));
      assert forall i :: 0 <= i < |queue.gq| ==> queue.gq[i] in old(queue.gq) || queue.gq[i] == p;
      hide Runs.IdleSend, Runs.Push;
      if p.priority == Immediately {
        var _ := IdleSend(r);
      } else if |queue.gq| == 1 {
        idles := idles + 1;
      }
    }

    /** A scheduled idle send runs, and stays scheduled when it asks to. */
    method RunIdle(r: Runs.SendResult)
      requires Valid() && idles > 0
      modifies this, queue, queue.gq
      ensures Valid() && (forall x :: x in queue.gq ==> x in old(queue.gq))
      ensures Seen() == Runs.RunIdle(old(Seen()), r)
    {
      var renew := IdleSend(r);
      if !renew {
        idles := idles - 1;
      }
    }

    /** The requests that a response callback makes. */
    method RequestAll(ps: seq<Request>, r: Runs.SendResult)
      requires Valid() && Distinct(ps) && forall p :: p in ps ==> p !in queue.gq
      modifies this, queue, queue.gq, ps
      ensures Valid() && (forall x :: x in queue.gq ==> x in old(queue.gq) || x in ps)
      ensures Seen() == Runs.RequestAll(old(Seen()), old(SeenAll(ps)), r)
      decreases |ps|
    {
      hide Runs.Request, Runs.RequestAll;
      ghost var s, asked := Seen(), SeenAll(ps);
      RequestAllStep(s, asked, r);
      if |ps| == 0 {
        return;
      }
      var first, rest := ps[0], ps[1..];
      assert forall j :: 1 <= j < |ps| ==> ps[j] !in queue.gq && ps[j] != first;
      SendRequest(first, r);
      assert forall k :: 0 <= k < |queue.gq| ==> queue.gq[k] in old(queue.gq) || queue.gq[k] == first;
      assert forall j :: 1 <= j < |ps| ==> ps[j].Seen() == asked[j];
      assert SeenAll(rest) == asked[1..];
      assert forall p :: p in rest ==> p in ps && p != first;
      RequestAll(rest, r);
    }

    /** A response with an id, in CUSTOM mode; ps are the requests that its callback makes. */
    method DispatchById(id: nat, ps: seq<Request>, r: Runs.SendResult) returns (known: bool)
      requires Valid() && mode == Runs.Custom
      requires Distinct(ps) && forall p :: p in ps ==> p !in queue.gq
      modifies this, queue, queue.gq, ps
      ensures Valid() && (forall x :: x in queue.gq ==> x in old(queue.gq) || x in ps)
      ensures Seen() == Runs.Respond(old(Seen()), id, old(SeenAll(ps)), r)
      ensures known <==> FirstWith(old(Seen()).queue, Runs.HasId(id)).Some?
    {
      hide Runs.RequestAll, FirstWith, RemoveAt, Runs.HasId;
      var n := queue.SearchById(id);
      if n.None? {
        return false;
      }
      var p := queue.PopNth(n.value);
      log := log + [Runs.Answered(Pending(p.id, p.priority, p.command, p.autoFree, p.flagSent))];
      RequestAll(ps, r);
      idles := idles + 1;
      return true;
    }

    /** The AT engine has taken a final line; the head of the queue is answered. */
    method DispatchFinal(ps: seq<Request>, r: Runs.SendResult)
      requires Valid() && mode == Runs.At
      requires Distinct(ps) && forall p :: p in ps ==> p !in queue.gq
      modifies this, queue, queue.gq, ps
      ensures Valid() && (forall x :: x in queue.gq ==> x in old(queue.gq) || x in ps)
      ensures Seen() == Runs.FinalLine(old(Seen()), old(SeenAll(ps)), r)
    {
      hide Runs.RequestAll;
      if atReq.None? {
        return;
      }
      atReq := None;
      if |queue.gq| > 0 {
        var p := queue.PopNth(0);
        log := log + [Runs.Answered(Pending(p.id, p.priority, p.command, p.autoFree, p.flagSent))];
      }
      RequestAll(ps, r);
      idles := idles + 1;
    }

    /** Data arrive for the adapter; none is what a cancelled request is answered with. */
    method DispatchResponseData(id: nat, data: Option<Runs.Data>, ps: seq<Request>, r: Runs.SendResult)
      requires Valid() && Distinct(ps) && forall p :: p in ps ==> p !in queue.gq
      modifies this, queue, queue.gq, ps
      ensures Valid() && (forall x :: x in queue.gq ==> x in old(queue.gq) || x in ps)
      ensures Seen() == Runs.Dispatch(old(Seen()), id, data, old(SeenAll(ps)), r)
    {
      hide Runs.FinalLine, Runs.Respond;
      if mode == Runs.At {
        if data.Some? && data.value.holdsFinal && atReq.Some? {
          DispatchFinal(ps, r);
        }
      } else {
        var _ := DispatchById(id, ps, r);
      }
    }

    /**
      A turn of the cancelling loop, on the match at place n, whose callback makes the requests calls[0],
      and the search for the next match.
     */
    method CancelTurn(n: nat, command: int, calls: seq<seq<Request>>) returns (next: Option<nat>)
      requires Valid() && FirstWith(Seen().queue, Runs.HasCommand(command)) == Some(n)
      requires calls != [] && Apart(calls, queue.gq)
      modifies this, queue, queue.gq, calls[0]
      ensures Valid() && (forall x :: x in queue.gq ==> x in old(queue.gq) || x in calls[0])
      ensures Seen() == Runs.CancelTurn(old(Seen()), command, old(SeenEach(calls))[0])
      ensures Apart(calls[1..], queue.gq) && SeenEach(calls[1..]) == old(SeenEach(calls))[1..]
      ensures next == FirstWith(Seen().queue, Runs.HasCommand(command))
    {
      hide Runs.Dispatch, FirstWith;
      ghost var asked := SeenEach(calls);
      DispatchResponseData(queue.gq[n].id, None, calls[0], Runs.Success);
      forall j | 1 <= j < |calls|
        ensures SeenAll(calls[j]) == asked[j]
      {
        assert forall i :: 0 <= i < |calls[j]| ==> calls[j][i] in calls[j];
        assert forall i :: 0 <= i < |calls[j]| ==> calls[j][i].Seen() == old(calls[j][i].Seen());
      }
      next := queue.SearchByCommand(command);
    }

    /** The loop of the program, where it comes to an end; the callback of turn k makes the requests calls[k]. */
    method CancelByCommand(command: int, calls: seq<seq<Request>>)
      requires Valid() && Apart(calls, queue.gq)
      requires Runs.Cancels(Seen(), command, SeenEach(calls))
      modifies this, queue, queue.gq, Every(calls)
      ensures Valid() && (forall x :: x in queue.gq ==> x in old(queue.gq) || x in Every(calls))
      ensures Seen() == Runs.Cancel(old(Seen()), command, old(SeenEach(calls)))
    {
      hide Runs.CancelTurn, Runs.Cancels, Runs.Cancel, FirstWith, SeenEach, SeenAll, Apart;
      ghost var mine := queue.gq;
      var left := calls;
      var n := queue.SearchByCommand(command);
      while n.Some?
        invariant Valid() && Apart(left, queue.gq) && forall p <- left :: p in calls
        invariant forall x :: x in queue.gq ==> x in mine || x in Every(calls)
        invariant n == FirstWith(Seen().queue, Runs.HasCommand(command))
        invariant Runs.Cancels(Seen(), command, SeenEach(left))
        invariant Runs.Cancel(Seen(), command, SeenEach(left)) == old(Runs.Cancel(Seen(), command, SeenEach(calls)))
        decreases |left|
      {
        Turned(Seen(), command, SeenEach(left));
        assert left[0] in calls;
        EveryOf(calls, left[0]);
        assert forall i :: 0 <= i < |queue.gq| ==> queue.gq[i] in mine || queue.gq[i] in Every(calls);
        assert forall i :: 0 <= i < |left[0]| ==> left[0][i] in Every(calls);
        n := CancelTurn(n.value, command, left);
        left := left[1..];
      }
      NotTurned(Seen(), command, SeenEach(left));
    }
  }
}
