/**
  The pending queue as a sequence: where a request is inserted, which one is sent next, and the
  order that results over any run of insertions and removals.
 */
module QueueOrder {
  import opened Wrappers

  datatype Priority = Immediately | High | Default | Low

  datatype Pending = Pending(id: nat, priority: Priority, command: int, autoFree: bool, sent: bool)

  type Queue = seq<Pending>

  /** Behind the leading IMMEDIATELY entries. */
  function HeadPosition(q: Queue): (n: nat)
    ensures n <= |q|
    ensures forall i :: 0 <= i < n ==> q[i].priority == Immediately
    ensures n < |q| ==> q[n].priority != Immediately
  {
    if q != [] && q[0].priority == Immediately then 1 + HeadPosition(q[1..]) else 0
  }

  function InsertAt(q: Queue, i: nat, p: Pending): Queue
    requires i <= |q|
  {
    q[..i] + [p] + q[i..]
  }

  function RemoveAt(q: Queue, i: nat): Queue
    requires i < |q|
  {
    q[..i] + q[i + 1..]
  }

  function Insert(q: Queue, p: Pending): Queue {
    if p.priority == Immediately || p.priority == High then InsertAt(q, HeadPosition(q), p) else q + [p]
  }

  /** The first entry that is not a sent IMMEDIATELY one, unless it waits for its response. */
  function NextPending(q: Queue): (n: Option<nat>)
    ensures n.Some? ==> n.value < |q| && !q[n.value].sent
    ensures n.Some? ==> forall i :: 0 <= i < n.value ==> q[i].priority == Immediately && q[i].sent
  {
    if q == [] then None
    else if q[0].priority == Immediately && q[0].sent then
      match NextPending(q[1..])
      case None => None
      case Some(k) => Some(k + 1)
    else if q[0].sent then None
    else Some(0)
  }

  /**
    What NextPending is: behind the leading sent IMMEDIATELY entries, the next entry if it is unsent,
    and nothing if it is sent or there is none.
   */
  lemma {:induction false} NextPendingIs(q: Queue, k: nat)
    requires k <= |q|
    requires forall i :: 0 <= i < k ==> q[i].priority == Immediately && q[i].sent
    requires k < |q| ==> q[k].priority != Immediately || !q[k].sent
    ensures NextPending(q) == if k < |q| && !q[k].sent then Some(k) else None
    decreases k
  {
    if k == 0 {
    } else {
      NextPendingIs(q[1..], k - 1);
    }
  }

  function FirstWith(q: Queue, f: Pending -> bool): (n: Option<nat>)
    ensures n.Some? ==> n.value < |q| && f(q[n.value]) && forall i :: 0 <= i < n.value ==> !f(q[i])
    ensures n.None? ==> forall i :: 0 <= i < |q| ==> !f(q[i])
  {
    if q == [] then None
    else if f(q[0]) then Some(0)
    else
      match FirstWith(q[1..], f)
      case None => None
      case Some(k) => Some(k + 1)
  }

  // ---------------------------------------------------------------------------------------
  // The order of the queue, in terms of the order of arrival.
  // ---------------------------------------------------------------------------------------

  function Only(live: Queue, keep: Priority -> bool): Queue {
    if live == [] then []
    else
      var n := |live| - 1;
      Only(live[..n], keep) + if keep(live[n].priority) then [live[n]] else []
  }

  function Reverse(q: Queue): Queue {
    if q == [] then [] else [q[|q| - 1]] + Reverse(q[..|q| - 1])
  }

  predicate IsImmediate(p: Priority) { p == Immediately }
  predicate IsHigh(p: Priority) { p == High }
  predicate IsOrdinary(p: Priority) { p == Default || p == Low }

  /**
    What the queue should be, given its entries in order of arrival: IMMEDIATELY in that order,
    then HIGH the other way round, then DEFAULT and LOW together in that order.
   */
  function Arranged(live: Queue): Queue {
    Only(live, IsImmediate) + Reverse(Only(live, IsHigh)) + Only(live, IsOrdinary)
  }

  lemma {:induction false} OnlyKeeps(live: Queue, keep: Priority -> bool)
    ensures forall i :: 0 <= i < |Only(live, keep)| ==> keep(Only(live, keep)[i].priority)
    decreases |live|
  {
    if live == [] {
    } else {
      OnlyKeeps(live[..|live| - 1], keep);
    }
  }

  lemma {:induction false} ReverseElements(q: Queue)
    ensures |Reverse(q)| == |q|
    ensures forall i :: 0 <= i < |q| ==> Reverse(q)[i] == q[|q| - 1 - i]
    decreases |q|
  {
    if q == [] {
    } else {
      ReverseElements(q[..|q| - 1]);
    }
  }

  lemma {:induction false} HeadPositionIs(front: Queue, back: Queue)
    requires forall i :: 0 <= i < |front| ==> front[i].priority == Immediately
    requires forall i :: 0 <= i < |back| ==> back[i].priority != Immediately
    ensures HeadPosition(front + back) == |front|
  {
    if front == [] {
      assert front + back == back;
    } else {
      assert (front + back)[1..] == front[1..] + back;
      HeadPositionIs(front[1..], back);
    }
  }

  lemma OnlySnoc(live: Queue, p: Pending, keep: Priority -> bool)
    ensures Only(live + [p], keep) == Only(live, keep) + if keep(p.priority) then [p] else []
  {
    assert (live + [p])[..|live|] == live;
  }

  /** A request that goes to the front is put between the two halves of an arranged queue. */
  lemma FrontOfArranged(imm: Queue, back: Queue, p: Pending)
    requires forall i :: 0 <= i < |imm| ==> imm[i].priority == Immediately
    requires forall i :: 0 <= i < |back| ==> back[i].priority != Immediately
    ensures InsertAt(imm + back, HeadPosition(imm + back), p) == imm + [p] + back
  {
    HeadPositionIs(imm, back);
    var q := imm + back;
    assert q[..|imm|] == imm && q[|imm|..] == back;
  }

  lemma ReverseSnoc(q: Queue, p: Pending)
    ensures Reverse(q + [p]) == [p] + Reverse(q)
  {
    assert (q + [p])[..|q|] == q;
  }

  /** Inserting into an arranged queue arranges the new arrival too. */
  lemma InsertArranged(live: Queue, p: Pending)
    ensures Insert(Arranged(live), p) == Arranged(live + [p])
  {
    hide Only, Reverse, HeadPosition, InsertAt;
    var imm, high, rest := Only(live, IsImmediate), Only(live, IsHigh), Only(live, IsOrdinary);
    OnlySnoc(live, p, IsImmediate);
    OnlySnoc(live, p, IsHigh);
    OnlySnoc(live, p, IsOrdinary);
    OnlyKeeps(live, IsImmediate);
    OnlyKeeps(live, IsHigh);
    OnlyKeeps(live, IsOrdinary);
    ReverseElements(high);
    var back := Reverse(high) + rest;
    FrontOfArranged(imm, back, p);
    var q := Arranged(live);
    assert q == imm + back;
    assert imm + [] == imm && high + [] == high && rest + [] == rest;
    match p.priority
    case Immediately =>
      assert imm + [p] + back == imm + [p] + Reverse(high) + rest;
    case High =>
      ReverseSnoc(high, p);
      assert imm + [p] + back == imm + ([p] + Reverse(high)) + rest;
    case _ =>
      assert q + [p] == imm + Reverse(high) + (rest + [p]);
  }

  /** Where the k-th arrival stands among the entries of its kind. */
  function CountBefore(live: Queue, keep: Priority -> bool, k: nat): nat
    requires k <= |live|
  {
    |Only(live[..k], keep)|
  }

  lemma {:induction false} OnlyRemove(live: Queue, keep: Priority -> bool, k: nat)
    requires k < |live|
    ensures var n := CountBefore(live, keep, k);
      if keep(live[k].priority) then
        && n < |Only(live, keep)|
        && Only(live, keep)[n] == live[k]
        && Only(RemoveAt(live, k), keep) == RemoveAt(Only(live, keep), n)
      else Only(RemoveAt(live, k), keep) == Only(live, keep)
    decreases |live|
  {
    hide Only;
    var n := |live| - 1;
    var front, last := live[..n], live[n];
    assert live == front + [last];
    OnlySnoc(front, last, keep);
    if k == n {
      assert RemoveAt(live, k) == front;
    } else {
      OnlyRemove(front, keep, k);
      assert front[..k] == live[..k];
      assert RemoveAt(live, k) == RemoveAt(front, k) + [last];
      OnlySnoc(RemoveAt(front, k), last, keep);
    }
  }

  lemma {:induction false} OnlyUpdate(live: Queue, keep: Priority -> bool, k: nat, x: Pending)
    requires k < |live| && x.priority == live[k].priority
    ensures var n := CountBefore(live, keep, k);
      if keep(x.priority) then n < |Only(live, keep)| && Only(live[k := x], keep) == Only(live, keep)[n := x]
      else Only(live[k := x], keep) == Only(live, keep)
    decreases |live|
  {
    hide Only;
    var n := |live| - 1;
    var front, last := live[..n], live[n];
    assert live == front + [last];
    OnlySnoc(front, last, keep);
    if k == n {
      assert live[k := x] == front + [x];
      OnlySnoc(front, x, keep);
    } else {
      OnlyUpdate(front, keep, k, x);
      assert front[..k] == live[..k];
      assert live[k := x] == front[k := x] + [last];
      OnlySnoc(front[k := x], last, keep);
    }
  }

  lemma {:induction false} ReverseConcat(a: Queue, b: Queue)
    ensures Reverse(a + b) == Reverse(b) + Reverse(a)
    decreases |b|
  {
    if b == [] {
      assert a + b == a;
    } else {
      var n := |b| - 1;
      assert a + b == (a + b[..n]) + [b[n]] && b == b[..n] + [b[n]];
      ReverseConcat(a, b[..n]);
      ReverseSnoc(a + b[..n], b[n]);
      ReverseSnoc(b[..n], b[n]);
    }
  }

  lemma ReverseRemove(q: Queue, i: nat)
    requires i < |q|
    ensures |Reverse(q)| == |q|
    ensures Reverse(RemoveAt(q, i)) == RemoveAt(Reverse(q), |q| - 1 - i)
  {
    hide Reverse;
    var front, back := q[..i], q[i + 1..];
    ReverseConcat(front, back);
    ReverseConcat(front + [q[i]], back);
    assert q == (front + [q[i]]) + back;
    ReverseSnoc(front, q[i]);
    ReverseElements(back);
    ReverseElements(front);
  }

  lemma ReverseUpdate(q: Queue, i: nat, x: Pending)
    requires i < |q|
    ensures |Reverse(q)| == |q|
    ensures Reverse(q[i := x]) == Reverse(q)[|q| - 1 - i := x]
  {
    ReverseElements(q);
    ReverseElements(q[i := x]);
    hide Reverse;
  }

  /** The place in the arranged queue of the k-th arrival still in it. */
  function Place(live: Queue, k: nat): nat
    requires k < |live|
  {
    var imm, high := |Only(live, IsImmediate)|, |Only(live, IsHigh)|;
    match live[k].priority
    case Immediately => CountBefore(live, IsImmediate, k)
    case High => if high > CountBefore(live, IsHigh, k) then imm + (high - 1 - CountBefore(live, IsHigh, k)) else 0
    case _ => imm + high + CountBefore(live, IsOrdinary, k)
  }

  lemma PartsAt(a: Queue, b: Queue, c: Queue, n: nat, x: Pending)
    ensures n < |a| ==> RemoveAt(a + b + c, n) == RemoveAt(a, n) + b + c
    ensures n < |a| ==> (a + b + c)[n := x] == a[n := x] + b + c
    ensures n < |b| ==> RemoveAt(a + b + c, |a| + n) == a + RemoveAt(b, n) + c
    ensures n < |b| ==> (a + b + c)[|a| + n := x] == a + b[n := x] + c
    ensures n < |c| ==> RemoveAt(a + b + c, |a| + |b| + n) == a + b + RemoveAt(c, n)
    ensures n < |c| ==> (a + b + c)[|a| + |b| + n := x] == a + b + c[n := x]
  {
  }

  /** Removing an entry, wherever it stands, or marking it leaves the queue arranged. */
  lemma ArrangedAt(live: Queue, k: nat, x: Pending)
    requires k < |live| && x.priority == live[k].priority
    ensures var i := Place(live, k);
      && i < |Arranged(live)|
      && Arranged(live)[i] == live[k]
      && RemoveAt(Arranged(live), i) == Arranged(RemoveAt(live, k))
      && Arranged(live)[i := x] == Arranged(live[k := x])
  {
    hide Only, Reverse, RemoveAt;
    var imm, high, rest := Only(live, IsImmediate), Only(live, IsHigh), Only(live, IsOrdinary);
    OnlyRemove(live, IsImmediate, k);
    OnlyUpdate(live, IsImmediate, k, x);
    OnlyRemove(live, IsHigh, k);
    OnlyUpdate(live, IsHigh, k, x);
    OnlyRemove(live, IsOrdinary, k);
    OnlyUpdate(live, IsOrdinary, k, x);
    ReverseElements(high);
    match live[k].priority
    case Immediately => PartsAt(imm, Reverse(high), rest, CountBefore(live, IsImmediate, k), x);
    case High =>
      var n := CountBefore(live, IsHigh, k);
      ReverseRemove(high, n);
      ReverseUpdate(high, n, x);
      PartsAt(imm, Reverse(high), rest, |high| - 1 - n, x);
    case _ => PartsAt(imm, Reverse(high), rest, CountBefore(live, IsOrdinary, k), x);
  }

  lemma {:induction false} OnlyOnto(live: Queue, keep: Priority -> bool, n: nat) returns (k: nat)
    requires n < |Only(live, keep)|
    ensures k < |live| && keep(live[k].priority) && CountBefore(live, keep, k) == n
    decreases |live|
  {
    var m := |live| - 1;
    if n < |Only(live[..m], keep)| {
      k := OnlyOnto(live[..m], keep, n);
      assert live[..m][..k] == live[..k];
    } else {
      k := m;
    }
  }

  /** Every place in the queue is some arrival's. */
  lemma PlaceOnto(live: Queue, i: nat)
    requires i < |Arranged(live)|
    ensures exists k: nat :: k < |live| && Place(live, k) == i
  {
    var imm, high := |Only(live, IsImmediate)|, |Only(live, IsHigh)|;
    ReverseElements(Only(live, IsHigh));
    var k: nat;
    if i < imm {
      k := OnlyOnto(live, IsImmediate, i);
    } else if i < imm + high {
      k := OnlyOnto(live, IsHigh, high - 1 - (i - imm));
    } else {
      k := OnlyOnto(live, IsOrdinary, i - imm - high);
    }
    assert Place(live, k) == i;
  }

  // ---------------------------------------------------------------------------------------
  // Whole runs.
  // ---------------------------------------------------------------------------------------

  /** What can happen to the queue; marking leaves an entry's priority as it is. */
  datatype Op = Arrive(p: Pending) | Leave(i: nat) | Mark(i: nat, id: nat, sent: bool)

  function Marked(p: Pending, op: Op): Pending
    requires op.Mark?
  {
    p.(id := op.id, sent := op.sent)
  }

  function OnQueue(q: Queue, op: Op): Queue {
    match op
    case Arrive(p) => Insert(q, p)
    case Leave(i) => if i < |q| then RemoveAt(q, i) else q
    case Mark(i, _, _) => if i < |q| then q[i := Marked(q[i], op)] else q
  }

  /** The arrival that stands at place i of the arranged queue. */
  ghost function ArrivalAt(live: Queue, i: nat): (k: nat)
    requires i < |Arranged(live)|
    ensures k < |live| && Place(live, k) == i
  {
    PlaceOnto(live, i);
    var k: nat :| k < |live| && Place(live, k) == i;
    k
  }

  /** The same operation on the list of entries in order of arrival, which is never reordered. */
  ghost function OnArrivals(live: Queue, op: Op): Queue {
    match op
    case Arrive(p) => live + [p]
    case Leave(i) => if i < |Arranged(live)| then RemoveAt(live, ArrivalAt(live, i)) else live
    case Mark(i, _, _) =>
      if i < |Arranged(live)| then
        var k := ArrivalAt(live, i);
        live[k := Marked(live[k], op)]
      else live
  }

  function RunQueue(q: Queue, ops: seq<Op>): Queue
    decreases |ops|
  {
    if ops == [] then q else RunQueue(OnQueue(q, ops[0]), ops[1..])
  }

  ghost function RunArrivals(live: Queue, ops: seq<Op>): Queue
    decreases |ops|
  {
    if ops == [] then live else RunArrivals(OnArrivals(live, ops[0]), ops[1..])
  }

  lemma StepArranged(live: Queue, op: Op)
    ensures OnQueue(Arranged(live), op) == Arranged(OnArrivals(live, op))
  {
    hide Arranged, Insert, RemoveAt, Place;
    var q := Arranged(live);
    match op
    case Arrive(p) => InsertArranged(live, p);
    case Leave(i) =>
      if i < |q| {
        var k := ArrivalAt(live, i);
        ArrangedAt(live, k, live[k]);
      }
    case Mark(i, _, _) =>
      if i < |q| {
        var k := ArrivalAt(live, i);
        ArrangedAt(live, k, Marked(live[k], op));
      }
  }

  /** After any run of arrivals, removals and markings, the queue is in the order of Arranged. */
  lemma {:induction false} QueueStaysArranged(live: Queue, ops: seq<Op>)
    ensures RunQueue(Arranged(live), ops) == Arranged(RunArrivals(live, ops))
    decreases |ops|
  {
    if ops == [] {
    } else {
      StepArranged(live, ops[0]);
      QueueStaysArranged(OnArrivals(live, ops[0]), ops[1..]);
    }
  }
}
