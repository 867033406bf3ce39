/**
  What one operation of the adapter does to queue, ids, log and scheduled idle sends, field by field.
 */
module HalEffects {
  import opened Wrappers
  import opened QueueOrder
  import opened HalRuns

  /**
    A request joins the queue behind the leading IMMEDIATELY entries, or at the end when it is DEFAULT or
    LOW. It keeps its own id; only one of zero is replaced by the next number.
   */
  lemma Queued(s: State, p: Pending) returns (i: nat)
    ensures i <= |s.queue|
    ensures
      var t, x := Push(s, p), Pending(if p.id == 0 then s.nextId else p.id, p.priority, p.command, p.autoFree, p.sent);
      && t == State(s.mode, s.queue[..i] + [x] + s.queue[i..], if p.id == 0 then s.nextId + 1 else s.nextId,
                    s.idles, s.atReq, s.log)
      && (p.priority in {Default, Low} ==> i == |s.queue|)
      && (p.priority in {Immediately, High} ==>
            (forall j :: 0 <= j < i ==> s.queue[j].priority == Immediately)
            && (i < |s.queue| ==> s.queue[i].priority != Immediately))
  {
    i := if p.priority in {Default, Low} then |s.queue| else HeadPosition(s.queue);
    assert s.queue[..|s.queue|] == s.queue && s.queue[|s.queue|..] == [];
  }

  /** A request that is not IMMEDIATELY waits; an idle send is scheduled exactly when the queue was empty. */
  lemma RequestWaits(s: State, p: Pending, r: SendResult)
    requires p.priority != Immediately
    ensures Request(s, p, r) == Push(s, p).(idles := s.idles + if s.queue == [] then 1 else 0)
  {
    var i := Queued(s, p);
    hide Insert;
  }

  lemma {:induction false} RequestsInTurn(s: State, ps: seq<Pending>, p: Pending, r: SendResult)
    ensures RequestAll(s, [], r) == s
    ensures RequestAll(s, ps + [p], r) == Request(RequestAll(s, ps, r), p, r)
    decreases |ps|
  {
    hide Request;
    if ps == [] {
      assert ps + [p] == [p] && [p][1..] == [];
    } else {
      assert (ps + [p])[0] == ps[0] && (ps + [p])[1..] == ps[1..] + [p];
      RequestsInTurn(Request(s, ps[0], r), ps[1..], p, r);
    }
  }

  /**
    In AT mode only data with a final line count, and only while the engine holds a request: the head of
    the queue is answered, whatever its id, then its callback makes its requests, and an idle send is
    scheduled in any case.
   */
  lemma AtData(s: State, id: nat, data: Option<Data>, ps: seq<Pending>, r: SendResult)
    requires s.mode == At
    ensures Dispatch(s, id, data, ps, r) ==
      if data == Some(Data(true)) && s.atReq != None then
        var rest := if s.queue == [] then [] else s.queue[1..];
        var answers := if s.queue == [] then [] else [Answered(s.queue[0])];
        var t := RequestAll(State(At, rest, s.nextId, s.idles, None, s.log + answers), ps, r);
        t.(idles := t.idles + 1)
      else s
  {
    hide RequestAll;
    if s.queue != [] {
      assert s.queue[..0] + s.queue[1..] == s.queue[1..];
    } else {
      assert s.log + [] == s.log;
    }
  }

  /**
    In CUSTOM mode the first request with the id is answered, with or without data, its callback makes its
    requests, and an idle send is scheduled; an id that no request has changes nothing.
   */
  lemma CustomData(s: State, id: nat, data: Option<Data>, ps: seq<Pending>, r: SendResult, i: nat)
    requires s.mode == Custom && i <= |s.queue|
    requires (forall j :: 0 <= j < i ==> s.queue[j].id != id) && (i < |s.queue| ==> s.queue[i].id == id)
    ensures Dispatch(s, id, data, ps, r) ==
      if i == |s.queue| then s
      else
        var t := RequestAll(State(Custom, s.queue[..i] + s.queue[i + 1..], s.nextId, s.idles, s.atReq,
                                  s.log + [Answered(s.queue[i])]), ps, r);
        t.(idles := t.idles + 1)
  {
    hide RequestAll;
    var first := FirstWith(s.queue, HasId(id));
    if i == |s.queue| {
      assert first.None?;
    } else {
      assert HasId(id)(s.queue[i]);
      assert first == Some(i);
    }
  }
}
