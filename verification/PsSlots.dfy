/**
  The slot table that hands out context ids to PDP contexts: contexts with the same access point
  name share a slot, and with it an id.
 */
module PsSlots {

  import opened Wrappers

  const PS_MAX_CID := 4

  datatype State = Deactivated | Activating | Activated | Deactivating

  datatype Return = Success | Invalid | NetworkNotReady | CidError | IsActivating | IsDeactivating | AskPlugin

  class Context {
    var id: nat
    var state: State
    const apn: Option<string>

    constructor (apn: Option<string>)
      ensures id == 0 && state == Deactivated && this.apn == apn
    {
      id, state, this.apn := 0, Deactivated, apn;
    }
  }

  datatype Slot = Slot(cid: nat, contexts: seq<Context>)

  datatype Info = Info(id: nat, state: State)

  datatype World = World(online: bool, slots: seq<Slot>, info: map<Context, Info>)

  datatype Step =
    | Activate(c: Context)
    | Deactivate(c: Context)
    | Clear(c: Context)
    | SetState(c: Context, state: State)
    | SetOnline(online: bool)

  // ---------------------------------------------------------------------------------------
  // The operations.
  // ---------------------------------------------------------------------------------------

  /** Five slots, every listed context known with an id that is a slot, and no marked slot empty. */
  predicate Sound(w: World) {
    && |w.slots| == PS_MAX_CID + 1
    && (forall i :: 0 <= i <= PS_MAX_CID ==> SoundSlot(w, w.slots[i]))
  }

  predicate SoundSlot(w: World, s: Slot) {
    && (s.cid != 0 ==> s.contexts != [])
    && (forall c <- s.contexts :: c in w.info && w.info[c].id <= PS_MAX_CID)
  }

  /** The scans stop before the last slot. */
  predicate IsActive(w: World, c: Context)
    requires |w.slots| == PS_MAX_CID + 1
  {
    exists i :: 0 <= i < PS_MAX_CID && w.slots[i].cid != 0 && c in w.slots[i].contexts
  }

  function Twin(list: seq<Context>, c: Context): (t: Option<Context>)
    ensures t.Some? ==> t.value in list && t.value != c && t.value.apn == c.apn
    ensures t.None? ==> forall d <- list :: d == c || d.apn != c.apn
  {
    if list == [] then None
    else if list[0] != c && list[0].apn == c.apn then Some(list[0])
    else Twin(list[1..], c)
  }

  /** The first other context with the same access point name in the slots from i up. */
  function TwinFrom(w: World, c: Context, i: nat): (t: Option<Context>)
    requires |w.slots| == PS_MAX_CID + 1 && i <= PS_MAX_CID
    ensures t.Some? ==> t.value != c && t.value.apn == c.apn
    ensures t.Some? ==> exists j :: i <= j < PS_MAX_CID && w.slots[j].cid != 0 && t.value in w.slots[j].contexts
    ensures t.None? ==> forall j :: i <= j < PS_MAX_CID && w.slots[j].cid != 0 ==>
      forall d <- w.slots[j].contexts :: d == c || d.apn != c.apn
    decreases PS_MAX_CID - i
  {
    if i == PS_MAX_CID then None
    else if w.slots[i].cid != 0 && Twin(w.slots[i].contexts, c).Some? then Twin(w.slots[i].contexts, c)
    else TwinFrom(w, c, i + 1)
  }

  function FreeFrom(slots: seq<Slot>, i: nat): (n: Option<nat>)
    requires |slots| == PS_MAX_CID + 1 && i <= PS_MAX_CID + 1
    ensures n.Some? ==> i <= n.value <= PS_MAX_CID && slots[n.value].cid == 0
    ensures n.Some? ==> forall j :: i <= j < n.value ==> slots[j].cid != 0
    ensures n.None? ==> forall j :: i <= j <= PS_MAX_CID ==> slots[j].cid != 0
    decreases PS_MAX_CID + 1 - i
  {
    if i > PS_MAX_CID then None else if slots[i].cid == 0 then Some(i) else FreeFrom(slots, i + 1)
  }

  function RemoveFirst(list: seq<Context>, c: Context): (r: seq<Context>)
    ensures c !in list ==> r == list
    ensures forall d <- r :: d in list
    ensures forall d <- list :: d == c || d in r
  {
    if list == [] then [] else if list[0] == c then list[1..] else [list[0]] + RemoveFirst(list[1..], c)
  }

  function WithState(w: World, c: Context, s: State): World
    requires c in w.info
  {
    w.(info := w.info[c := w.info[c].(state := s)])
  }

  /** The id and the state of the twin are taken over with the rest of its service information. */
  function CopyInfo(w: World, c: Context, t: Context): World
    requires t in w.info
  {
    w.(info := w.info[c := w.info[t]])
  }

  function Append(w: World, i: nat, cid: nat, c: Context): World
    requires i < |w.slots| && c in w.info
  {
    w.(slots := w.slots[i := Slot(cid, w.slots[i].contexts + [c])])
  }

  function Assign(w: World, c: Context): (World, Return)
    requires Sound(w) && c in w.info
  {
    match FreeFrom(w.slots, 1)
    case Some(i) => (Append(w, i, i, c).(info := w.info[c := w.info[c].(id := i)]), Success)
    case None => (w, CidError)
  }

  function DoActivate(w: World, c: Context): (World, Return)
    requires Sound(w) && c in w.info
  {
    if !w.online then (w, NetworkNotReady)
    else if IsActive(w, c) then (w, Success)
    else
      match TwinFrom(w, c, 0)
      case Some(t) =>
        var i := w.info[t].id;
        (Append(CopyInfo(w, c, t), i, w.slots[i].cid, c), Success)
      case None =>
        match w.info[c].state
        case Activated => (w, Success)
        case Activating => (w, Success)
        case Deactivating => (w, IsDeactivating)
        case Deactivated =>
          if w.info[c].id != 0 then (WithState(w, c, Activating), AskPlugin)
          else
            var (v, r) := Assign(w, c);
            if r == Success then (WithState(v, c, Activating), AskPlugin) else (v, CidError)
  }

  function DoDeactivate(w: World, c: Context): (World, Return)
    requires Sound(w) && c in w.info
  {
    if !w.online then (w, NetworkNotReady)
    else if !IsActive(w, c) then (w, Invalid)
    else
      match TwinFrom(w, c, 0)
      case Some(t) =>
        var i := w.info[t].id;
        var v := CopyInfo(w, c, t);
        (WithState(v.(slots := v.slots[i := v.slots[i].(contexts := RemoveFirst(v.slots[i].contexts, c))]),
          c, Deactivated), Success)
      case None =>
        match w.info[c].state
        case Deactivated => (w, Success)
        case Deactivating => (w, Success)
        case Activating => (w, IsActivating)
        case Activated => (WithState(w, c, Deactivating), AskPlugin)
  }

  function DoClear(w: World, c: Context): (World, Return)
    requires Sound(w) && c in w.info
  {
    var i := w.info[c].id;
    if i == 0 || i > PS_MAX_CID then (w, CidError)
    else
      var list := RemoveFirst(w.slots[i].contexts, c);
      var cid := if list == [] then 0 else w.slots[i].cid;
      (w.(slots := w.slots[i := Slot(cid, list)], info := w.info[c := w.info[c].(id := 0)]), Success)
  }

  predicate Known(w: World, s: Step) {
    s.SetOnline? || s.c in w.info
  }

  function Do(w: World, s: Step): World
    requires Sound(w) && Known(w, s)
  {
    match s
    case Activate(c) => DoActivate(w, c).0
    case Deactivate(c) => DoDeactivate(w, c).0
    case Clear(c) => DoClear(w, c).0
    case SetState(c, state) => WithState(w, c, state)
    case SetOnline(online) => w.(online := online)
  }

  // ---------------------------------------------------------------------------------------
  // The invariant.
  // ---------------------------------------------------------------------------------------

  predicate Once(list: seq<Context>) {
    forall i, j :: 0 <= i < j < |list| ==> list[i] != list[j]
  }

  predicate Uniform(list: seq<Context>) {
    forall c, d :: c in list && d in list ==> c.apn == d.apn
  }

  predicate Apart(a: seq<Context>, b: seq<Context>) {
    forall c, d :: c in a && d in b ==> c.apn != d.apn
  }

  predicate Carry(w: World, list: seq<Context>, i: nat) {
    forall c <- list :: c in w.info && w.info[c].id == i
  }

  /**
    A slot in use holds its own number and at least one context, each once, with that id, and all
    with the same access point name.
   */
  predicate GoodSlot(w: World, i: nat)
    requires i < |w.slots|
  {
    && (w.slots[i].cid == 0 <==> w.slots[i].contexts == [])
    && (w.slots[i].cid == 0 || w.slots[i].cid == i)
    && Once(w.slots[i].contexts)
    && Carry(w, w.slots[i].contexts, i)
    && Uniform(w.slots[i].contexts)
  }

  predicate Inv(w: World) {
    && |w.slots| == PS_MAX_CID + 1
    && w.slots[0] == Slot(0, [])
    && (forall i :: 0 <= i <= PS_MAX_CID ==> GoodSlot(w, i))
    && (forall i, j :: 0 <= i < j <= PS_MAX_CID ==> Apart(w.slots[i].contexts, w.slots[j].contexts))
  }

  predicate Listed(w: World, c: Context) {
    exists i :: 0 <= i < |w.slots| && c in w.slots[i].contexts
  }

  lemma InvIsSound(w: World)
    requires Inv(w)
    ensures Sound(w)
  {
    forall i | 0 <= i <= PS_MAX_CID
      ensures SoundSlot(w, w.slots[i])
    {
      assert GoodSlot(w, i);
    }
  }

  // ---------------------------------------------------------------------------------------
  // What each operation does to the invariant.
  // ---------------------------------------------------------------------------------------

  lemma InfoChangeKeeps(w: World, v: World, c: Context)
    requires Inv(w) && c in w.info && v.slots == w.slots
    requires v.info.Keys == w.info.Keys && (forall d <- w.info :: d != c ==> v.info[d] == w.info[d])
    requires v.info[c].id == w.info[c].id || !Listed(w, c)
    ensures Inv(v)
  {
    forall i | 0 <= i <= PS_MAX_CID
      ensures GoodSlot(v, i)
    {
      assert GoodSlot(w, i);
    }
  }

  lemma AppendKeeps(w: World, v: World, i: nat, c: Context)
    requires Inv(w) && 1 <= i <= PS_MAX_CID && c in w.info && !Listed(w, c)
    requires Uniform(w.slots[i].contexts + [c])
    requires forall j :: 0 <= j <= PS_MAX_CID && j != i ==> Apart(w.slots[j].contexts, [c])
    requires v.slots == w.slots[i := Slot(i, w.slots[i].contexts + [c])]
    requires v.info.Keys == w.info.Keys && (forall d <- w.info :: d != c ==> v.info[d] == w.info[d])
    requires v.info[c].id == i
    ensures Inv(v)
  {
    hide Uniform, Apart;
    forall j | 0 <= j <= PS_MAX_CID
      ensures GoodSlot(v, j)
    {
      assert GoodSlot(w, j);
    }
    forall j, k | 0 <= j < k <= PS_MAX_CID
      ensures Apart(v.slots[j].contexts, v.slots[k].contexts)
    {
      assert Apart(w.slots[j].contexts, w.slots[k].contexts);
      if j == i {
        ApartAppend(w.slots[k].contexts, w.slots[i].contexts, c);
      } else if k == i {
        ApartAppend(w.slots[j].contexts, w.slots[i].contexts, c);
      }
    }
  }

  lemma ApartAppend(a: seq<Context>, b: seq<Context>, c: Context)
    requires Apart(a, [c]) && (Apart(a, b) || Apart(b, a))
    ensures Apart(a, b + [c]) && Apart(b + [c], a)
  {
    assert c in [c];
  }

  lemma {:induction false} RemoveOnce(list: seq<Context>, c: Context)
    requires Once(list)
    ensures Once(RemoveFirst(list, c)) && c !in RemoveFirst(list, c)
    decreases |list|
  {
    if list == [] {
    } else {
      assert forall k :: 0 < k < |list| ==> list[k] != list[0];
      RemoveOnce(list[1..], c);
      if list[0] != c {
        OnceCons(list[0], RemoveFirst(list[1..], c));
      }
    }
  }

  lemma OnceCons(d: Context, rest: seq<Context>)
    requires Once(rest) && d !in rest
    ensures Once([d] + rest)
  {
  }

  lemma RemoveStaysApart(list: seq<Context>, c: Context, others: seq<Context>)
    ensures Uniform(list) ==> Uniform(RemoveFirst(list, c))
    ensures Apart(list, others) ==> Apart(RemoveFirst(list, c), others)
    ensures Apart(others, list) ==> Apart(others, RemoveFirst(list, c))
  {
  }

  lemma RemoveKeeps(w: World, v: World, i: nat, c: Context)
    requires Inv(w) && 1 <= i <= PS_MAX_CID && c in w.info
    requires forall j :: 0 <= j <= PS_MAX_CID && j != i ==> c !in w.slots[j].contexts
    requires
      var list := RemoveFirst(w.slots[i].contexts, c);
      v.slots == w.slots[i := Slot(if list == [] then 0 else w.slots[i].cid, list)]
    requires v.info.Keys == w.info.Keys && (forall d <- w.info :: d != c ==> v.info[d] == w.info[d])
    ensures Inv(v) && !Listed(v, c)
  {
    hide Uniform, Apart, Once;
    assert GoodSlot(w, i);
    RemoveOnce(w.slots[i].contexts, c);
    RemoveStaysApart(w.slots[i].contexts, c, []);
    forall j | 0 <= j <= PS_MAX_CID
      ensures GoodSlot(v, j) && c !in v.slots[j].contexts
    {
      assert GoodSlot(w, j);
    }
    forall j, k | 0 <= j < k <= PS_MAX_CID
      ensures Apart(v.slots[j].contexts, v.slots[k].contexts)
    {
      assert Apart(w.slots[j].contexts, w.slots[k].contexts);
      if j == i {
        RemoveStaysApart(w.slots[i].contexts, c, w.slots[k].contexts);
      } else if k == i {
        RemoveStaysApart(w.slots[i].contexts, c, w.slots[j].contexts);
      }
    }
  }

  /** A listed context stands in the slot of its id and in no other. */
  lemma StandsInItsSlot(w: World, c: Context)
    requires Inv(w) && c in w.info
    ensures forall i :: 0 <= i <= PS_MAX_CID && c in w.slots[i].contexts ==> w.info[c].id == i && i != 0
    ensures Listed(w, c) <==> 1 <= w.info[c].id <= PS_MAX_CID && c in w.slots[w.info[c].id].contexts
  {
    forall i | 0 <= i <= PS_MAX_CID && c in w.slots[i].contexts
      ensures w.info[c].id == i && i != 0
    {
      assert GoodSlot(w, i);
    }
  }

  /** The one activation that goes wrong: the name is known only to the slot that the scans do not visit. */
  predicate OverlooksTwin(w: World, c: Context)
    requires |w.slots| == PS_MAX_CID + 1 && c in w.info
  {
    && w.online && !Listed(w, c)
    && w.info[c] == Info(0, Deactivated)
    && (exists d <- w.slots[PS_MAX_CID].contexts :: d.apn == c.apn)
    && (exists i :: 1 <= i < PS_MAX_CID && w.slots[i].cid == 0)
  }

  lemma ActiveInFront(w: World, c: Context)
    requires Inv(w)
    ensures IsActive(w, c) <==> exists i :: 0 <= i < PS_MAX_CID && c in w.slots[i].contexts
  {
    forall i | 0 <= i < PS_MAX_CID && c in w.slots[i].contexts
      ensures w.slots[i].cid != 0
    {
      assert GoodSlot(w, i);
    }
  }

  /** The slot of the twin holds exactly the contexts with its name. */
  lemma TwinSlot(w: World, c: Context, t: Context)
    requires Inv(w) && TwinFrom(w, c, 0) == Some(t)
    ensures t in w.info && 1 <= w.info[t].id < PS_MAX_CID
    ensures
      var i := w.info[t].id;
      && t in w.slots[i].contexts && w.slots[i].cid == i
      && (forall d <- w.slots[i].contexts :: d.apn == c.apn)
      && (forall j :: 0 <= j <= PS_MAX_CID && j != i ==> Apart(w.slots[j].contexts, [c]))
  {
    var i :| 0 <= i < PS_MAX_CID && w.slots[i].cid != 0 && t in w.slots[i].contexts;
    assert GoodSlot(w, i);
    forall j | 0 <= j <= PS_MAX_CID && j != i
      ensures Apart(w.slots[j].contexts, [c])
    {
      assert if j < i then Apart(w.slots[j].contexts, w.slots[i].contexts)
             else Apart(w.slots[i].contexts, w.slots[j].contexts);
    }
  }

  lemma NoTwinInFront(w: World, c: Context)
    requires Inv(w) && !IsActive(w, c) && TwinFrom(w, c, 0).None?
    ensures forall i :: 0 <= i < PS_MAX_CID ==> Apart(w.slots[i].contexts, [c])
  {
    ActiveInFront(w, c);
    forall i | 0 <= i < PS_MAX_CID
      ensures Apart(w.slots[i].contexts, [c])
    {
      assert GoodSlot(w, i);
    }
  }

  lemma ActivateTwin(w: World, c: Context, t: Context)
    requires Inv(w) && Sound(w) && c in w.info && !IsActive(w, c) && TwinFrom(w, c, 0) == Some(t)
    ensures !Listed(w, c)
    ensures Inv(Append(CopyInfo(w, c, t), w.info[t].id, w.slots[w.info[t].id].cid, c))
    ensures !OverlooksTwin(w, c)
  {
    ActiveInFront(w, c);
    TwinSlot(w, c, t);
    var i := w.info[t].id;
    assert Apart(w.slots[PS_MAX_CID].contexts, [c]) && c in [c];
    hide Inv;
    AppendKeeps(w, Append(CopyInfo(w, c, t), i, w.slots[i].cid, c), i, c);
  }

  lemma ActivateAssigns(w: World, c: Context)
    requires Inv(w) && Sound(w) && c in w.info && !IsActive(w, c) && TwinFrom(w, c, 0).None?
    requires w.online && w.info[c] == Info(0, Deactivated)
    ensures Assign(w, c).1 == Success ==> (Inv(WithState(Assign(w, c).0, c, Activating)) <==> !OverlooksTwin(w, c))
    ensures Assign(w, c).1 != Success ==> Assign(w, c) == (w, CidError) && !OverlooksTwin(w, c)
  {
    StandsInItsSlot(w, c);
    NoTwinInFront(w, c);
    match FreeFrom(w.slots, 1)
    case None =>
    case Some(i) =>
      assert GoodSlot(w, i);
      if OverlooksTwin(w, c) {
        AssignBesideTwin(w, c, i);
      } else {
        AssignAlone(w, c, i);
      }
  }

  lemma AssignBesideTwin(w: World, c: Context, i: nat)
    requires Inv(w) && Sound(w) && c in w.info && OverlooksTwin(w, c) && FreeFrom(w.slots, 1) == Some(i)
    ensures !Inv(WithState(Assign(w, c).0, c, Activating))
  {
    var v := WithState(Assign(w, c).0, c, Activating);
    var d :| d in w.slots[PS_MAX_CID].contexts && d.apn == c.apn;
    assert i < PS_MAX_CID && c in v.slots[i].contexts && d in v.slots[PS_MAX_CID].contexts;
    assert !Apart(v.slots[i].contexts, v.slots[PS_MAX_CID].contexts);
  }

  lemma AssignAlone(w: World, c: Context, i: nat)
    requires Inv(w) && Sound(w) && c in w.info && !OverlooksTwin(w, c) && FreeFrom(w.slots, 1) == Some(i)
    requires w.online && w.info[c] == Info(0, Deactivated) && !Listed(w, c)
    requires forall j :: 0 <= j < PS_MAX_CID ==> Apart(w.slots[j].contexts, [c])
    ensures Inv(WithState(Assign(w, c).0, c, Activating))
  {
    assert GoodSlot(w, i);
    assert i < PS_MAX_CID ==> Apart(w.slots[PS_MAX_CID].contexts, [c]);
    hide Inv, OverlooksTwin, Sound, GoodSlot;
    AppendKeeps(w, WithState(Assign(w, c).0, c, Activating), i, c);
  }

  /** Activating keeps the invariant exactly when it overlooks no twin in the last slot. */
  lemma ActivateKeeps(w: World, c: Context)
    requires Inv(w) && Sound(w) && c in w.info
    ensures Inv(DoActivate(w, c).0) <==> !OverlooksTwin(w, c)
  {
    if w.online && !IsActive(w, c) {
      hide Inv, Assign, Append, CopyInfo, SoundSlot, IsActive, OverlooksTwin;
      match TwinFrom(w, c, 0)
      case Some(t) =>
        ActivateTwin(w, c, t);
      case None =>
        if w.info[c] == Info(0, Deactivated) {
          ActivateAssigns(w, c);
        } else {
          OverlooksOnlyUnassigned(w, c);
          if w.info[c].state == Deactivated {
            InfoChangeKeeps(w, WithState(w, c, Activating), c);
          }
        }
    }
  }

  lemma OverlooksOnlyUnassigned(w: World, c: Context)
    requires |w.slots| == PS_MAX_CID + 1 && c in w.info
    ensures OverlooksTwin(w, c) ==> w.info[c] == Info(0, Deactivated)
  {
  }

  lemma DeactivateKeeps(w: World, c: Context)
    requires Inv(w) && Sound(w) && c in w.info
    ensures Inv(DoDeactivate(w, c).0)
  {
    if w.online && IsActive(w, c) {
      match TwinFrom(w, c, 0)
      case Some(t) =>
        TwinSlot(w, c, t);
        StandsInItsSlot(w, c);
        var i := w.info[t].id;
        assert t in RemoveFirst(w.slots[i].contexts, c);
        hide Inv, Sound, IsActive;
        RemoveKeeps(w, DoDeactivate(w, c).0, i, c);
      case None =>
        if w.info[c].state == Activated {
          InfoChangeKeeps(w, DoDeactivate(w, c).0, c);
        }
    }
  }

  lemma ClearKeeps(w: World, c: Context)
    requires Inv(w) && Sound(w) && c in w.info
    ensures Inv(DoClear(w, c).0)
    ensures !Listed(DoClear(w, c).0, c)
  {
    var i := w.info[c].id;
    StandsInItsSlot(w, c);
    hide Inv, Sound;
    if 0 < i <= PS_MAX_CID {
      RemoveKeeps(w, DoClear(w, c).0, i, c);
    }
  }

  // ---------------------------------------------------------------------------------------
  // Runs.
  // ---------------------------------------------------------------------------------------

  /** Exactly when a step keeps the invariant. */
  lemma StepKeeps(w: World, s: Step)
    requires Inv(w) && Sound(w) && Known(w, s)
    ensures Inv(Do(w, s)) <==> !(s.Activate? && OverlooksTwin(w, s.c))
    ensures Do(w, s).info.Keys == w.info.Keys
  {
    hide Inv, OverlooksTwin;
    match s
    case Activate(c) => ActivateKeeps(w, c);
    case Deactivate(c) => DeactivateKeeps(w, c);
    case Clear(c) => ClearKeeps(w, c);
    case SetState(c, state) => InfoChangeKeeps(w, WithState(w, c, state), c);
    case SetOnline(online) => OnlineKeeps(w, online);
  }

  lemma OnlineKeeps(w: World, online: bool)
    requires Inv(w)
    ensures Inv(w.(online := online))
  {
    forall i | 0 <= i <= PS_MAX_CID
      ensures GoodSlot(w.(online := online), i)
    {
      assert GoodSlot(w, i);
    }
  }

  predicate Fresh(w: World) {
    && w.slots == seq(PS_MAX_CID + 1, i => Slot(0, []))
    && (forall c <- w.info :: w.info[c] == Info(0, Deactivated))
  }

  lemma FreshIsGood(w: World)
    requires Fresh(w)
    ensures Inv(w)
  {
    assert forall i :: 0 <= i <= PS_MAX_CID ==> GoodSlot(w, i);
  }

  /** The run ws takes the steps ss from a fresh table. */
  predicate Run(ws: seq<World>, ss: seq<Step>) {
    && |ws| == |ss| + 1 && Fresh(ws[0])
    && (forall i :: 0 <= i < |ss| ==> Sound(ws[i]) && Known(ws[i], ss[i]) && ws[i + 1] == Do(ws[i], ss[i]))
  }

  function NamesIn(list: seq<Context>): (names: set<Option<string>>) {
    set c <- list :: c.apn
  }

  /** The access point names that are listed anywhere. */
  function ListedNames(w: World): set<Option<string>>
    requires |w.slots| == PS_MAX_CID + 1
  {
    NamesIn(w.slots[0].contexts) + NamesIn(w.slots[1].contexts) + NamesIn(w.slots[2].contexts)
    + NamesIn(w.slots[3].contexts) + NamesIn(w.slots[4].contexts)
  }

  lemma UsedSlotHasName(w: World, i: nat) returns (c: Context)
    requires Inv(w) && i <= PS_MAX_CID && w.slots[i].cid != 0
    ensures c in w.slots[i].contexts && c.apn in ListedNames(w)
  {
    assert GoodSlot(w, i);
    c := w.slots[i].contexts[0];
    assert c.apn in NamesIn(w.slots[i].contexts);
  }

  /** Four slots in use hold four names. */
  lemma FourNames(w: World)
    requires Inv(w) && (forall i :: 1 <= i <= PS_MAX_CID ==> w.slots[i].cid != 0)
    ensures |ListedNames(w)| >= 4
  {
    var c1 := UsedSlotHasName(w, 1);
    var c2 := UsedSlotHasName(w, 2);
    var c3 := UsedSlotHasName(w, 3);
    var c4 := UsedSlotHasName(w, 4);
    assert Apart(w.slots[1].contexts, w.slots[2].contexts) && Apart(w.slots[1].contexts, w.slots[3].contexts);
    assert Apart(w.slots[1].contexts, w.slots[4].contexts) && Apart(w.slots[2].contexts, w.slots[3].contexts);
    assert Apart(w.slots[2].contexts, w.slots[4].contexts) && Apart(w.slots[3].contexts, w.slots[4].contexts);
    hide Inv, Apart, ListedNames;
    AtLeastFour(c1.apn, c2.apn, c3.apn, c4.apn, ListedNames(w));
  }

  lemma AtLeastFour<T>(a: T, b: T, c: T, d: T, s: set<T>)
    requires a in s && b in s && c in s && d in s
    requires a != b && a != c && a != d && b != c && b != d && c != d
    ensures |s| >= 4
  {
    assert |s| == |s - {a, b, c, d}| + |{a, b, c, d}| by { assert s == (s - {a, b, c, d}) + {a, b, c, d}; }
    assert |{a, b, c, d}| == 4;
  }

  /** The last slot comes into use only when the other three are. */
  lemma LastSlotIsTakenLast(w: World, s: Step)
    requires Inv(w) && Sound(w) && Known(w, s) && w.slots[PS_MAX_CID].cid == 0
    requires Do(w, s).slots[PS_MAX_CID].cid != 0
    ensures forall i :: 1 <= i <= PS_MAX_CID ==> Do(w, s).slots[i].cid != 0
  {
    hide TwinFrom, Inv;
    match s
    case Activate(c) =>
      if !IsActive(w, c) && TwinFrom(w, c, 0).Some? {
        TwinSlot(w, c, TwinFrom(w, c, 0).value);
      }
    case Deactivate(c) =>
    case Clear(c) =>
    case SetState(c, state) =>
    case SetOnline(online) =>
  }

  /**
    In any run in which no more than three access point names are ever listed at once, the table is
    always in order, and the last slot stays free.
   */
  lemma {:induction false} ThreeNamesStayInOrder(ws: seq<World>, ss: seq<Step>)
    requires Run(ws, ss)
    requires forall w <- ws :: |w.slots| == PS_MAX_CID + 1 ==> |ListedNames(w)| <= 3
    ensures Inv(ws[|ss|]) && ws[|ss|].slots[PS_MAX_CID].cid == 0
    decreases |ss|
  {
    hide Inv, Sound, ListedNames, Do, OverlooksTwin;
    if ss == [] {
      FreshIsGood(ws[0]);
      OrderedShape(ws[0]);
      FreshLastSlot(ws[0]);
    } else {
      var n := |ss| - 1;
      ThreeNamesStayInOrder(ws[..n + 1], ss[..n]);
      NothingToOverlook(ws[n], ss[n]);
      StepKeeps(ws[n], ss[n]);
      OrderedShape(ws[n]);
      OrderedShape(ws[n + 1]);
      assert ws[n + 1] in ws;
      if ws[n + 1].slots[PS_MAX_CID].cid != 0 {
        LastSlotIsTakenLast(ws[n], ss[n]);
        FourNames(ws[n + 1]);
      }
    }
  }

  lemma OrderedShape(w: World)
    requires Inv(w)
    ensures |w.slots| == PS_MAX_CID + 1
  {
  }

  lemma FreshLastSlot(w: World)
    requires Fresh(w)
    ensures |w.slots| == PS_MAX_CID + 1 && w.slots[PS_MAX_CID].cid == 0
  {
  }

  lemma NothingToOverlook(w: World, s: Step)
    requires Inv(w) && Known(w, s) && w.slots[PS_MAX_CID].cid == 0
    ensures !(s.Activate? && OverlooksTwin(w, s.c))
  {
    assert GoodSlot(w, PS_MAX_CID);
  }

  /** Any run keeps the table in order as long as none of its activations overlooks a twin. */
  lemma {:induction false} RunStaysInOrder(ws: seq<World>, ss: seq<Step>)
    requires Run(ws, ss)
    requires forall i :: 0 <= i < |ss| && ss[i].Activate? ==> !OverlooksTwin(ws[i], ss[i].c)
    ensures Inv(ws[|ss|])
    decreases |ss|
  {
    hide Inv, Sound, Do, OverlooksTwin;
    if ss == [] {
      FreshIsGood(ws[0]);
    } else {
      var n := |ss| - 1;
      RunStaysInOrder(ws[..n + 1], ss[..n]);
      StepKeeps(ws[n], ss[n]);
    }
  }

  // ---------------------------------------------------------------------------------------
  // What the order is good for, and where it falls short.
  // ---------------------------------------------------------------------------------------

  function ById(w: World, id: int): (list: seq<Context>)
    requires |w.slots| == PS_MAX_CID + 1
  {
    if id <= 0 || id > PS_MAX_CID || w.slots[id].cid != id then [] else w.slots[id].contexts
  }

  /** The id of a listed context leads to exactly the listed contexts with its access point name. */
  lemma IdFindsName(w: World, c: Context, d: Context)
    requires Inv(w) && c in w.info && d in w.info && Listed(w, c)
    ensures d in ById(w, w.info[c].id) <==> Listed(w, d) && d.apn == c.apn
  {
    StandsInItsSlot(w, c);
    StandsInItsSlot(w, d);
    var i, j := w.info[c].id, w.info[d].id;
    assert GoodSlot(w, i);
    if Listed(w, d) && i != j {
      assert if i < j then Apart(w.slots[i].contexts, w.slots[j].contexts)
             else Apart(w.slots[j].contexts, w.slots[i].contexts);
    }
  }

  /**
    A context deactivated beside a twin keeps the id it had copied. Once no slot that the scans visit
    has its name, activating it asks the plug-in without listing it; this is the only way in which
    that happens.
   */
  lemma AskedButUnlisted(w: World, c: Context)
    requires Inv(w) && Sound(w) && c in w.info
    ensures DoActivate(w, c).1 == AskPlugin && !Listed(DoActivate(w, c).0, c) <==>
            (&& w.online && !Listed(w, c) && w.info[c].state == Deactivated && w.info[c].id != 0
             && forall i :: 0 <= i < PS_MAX_CID ==> forall d <- w.slots[i].contexts :: d.apn != c.apn)
  {
    ActiveInFront(w, c);
    match TwinFrom(w, c, 0)
    case Some(t) => TwinSlot(w, c, t);
    case None =>
      if !IsActive(w, c) {
        NoTwinInFront(w, c);
        assert c in [c];
        if w.online && w.info[c] == Info(0, Deactivated) && FreeFrom(w.slots, 1).Some? {
          var i := FreeFrom(w.slots, 1).value;
          assert c in DoActivate(w, c).0.slots[i].contexts;
        }
      }
  }

  /** A first activation under a new name takes the first free slot. */
  lemma ActivateNew(w: World, c: Context, i: nat)
    requires Inv(w) && w.online && c in w.info && w.info[c] == Info(0, Deactivated)
    requires forall j :: 0 <= j < PS_MAX_CID ==> Apart(w.slots[j].contexts, [c])
    requires 1 <= i <= PS_MAX_CID && w.slots[i].cid == 0 && (forall j :: 1 <= j < i ==> w.slots[j].cid != 0)
    ensures Sound(w)
    ensures Do(w, Activate(c)) == w.(slots := w.slots[i := Slot(i, [c])], info := w.info[c := Info(i, Activating)])
  {
    InvIsSound(w);
    ActiveInFront(w, c);
    assert c in [c];
    assert GoodSlot(w, i);
    assert TwinFrom(w, c, 0).None?;
    assert FreeFrom(w.slots, 1) == Some(i);
    assert [] + [c] == [c];
  }

  function Next(w: World, c: Context, i: nat): World
    requires |w.slots| == PS_MAX_CID + 1 && i <= PS_MAX_CID
  {
    w.(slots := w.slots[i := Slot(i, [c])], info := w.info[c := Info(i, Activating)])
  }

  lemma FillNext(w: World, c: Context, i: nat)
    requires Inv(w) && w.online && c in w.info && w.info[c] == Info(0, Deactivated)
    requires forall j :: 0 <= j < PS_MAX_CID ==> Apart(w.slots[j].contexts, [c])
    requires 1 <= i <= PS_MAX_CID && w.slots[i].cid == 0 && (forall j :: 1 <= j < i ==> w.slots[j].cid != 0)
    requires w.slots[PS_MAX_CID].cid == 0
    ensures Sound(w) && Do(w, Activate(c)) == Next(w, c, i) && Inv(Next(w, c, i)) && Sound(Next(w, c, i))
  {
    ActivateNew(w, c, i);
    NothingToOverlook(w, Activate(c));
    StepKeeps(w, Activate(c));
    InvIsSound(Next(w, c, i));
  }

  /**
    With four names listed, clearing the first and activating a second context of the fourth gives
    the fourth name two slots.
   */
  lemma OverlookedTwinIsReachable(w: World, c1: Context, c2: Context, c3: Context, c4: Context, c5: Context)
    requires Fresh(w) && w.online && {c1, c2, c3, c4, c5} <= w.info.Keys && c4 != c5
    requires c1.apn != c2.apn && c1.apn != c3.apn && c1.apn != c4.apn
    requires c2.apn != c3.apn && c2.apn != c4.apn && c3.apn != c4.apn && c5.apn == c4.apn
    ensures exists ws ::
      && Run(ws, [Activate(c1), Activate(c2), Activate(c3), Activate(c4), Clear(c1), Activate(c5)])
      && !Inv(ws[6])
  {
    hide Inv, Sound, Do, OverlooksTwin;
    FreshIsGood(w);
    var w1 := Next(w, c1, 1);
    var w2 := Next(w1, c2, 2);
    var w3 := Next(w2, c3, 3);
    var w4 := Next(w3, c4, 4);
    FillNext(w, c1, 1);
    FillNext(w1, c2, 2);
    FillNext(w2, c3, 3);
    FillNext(w3, c4, 4);
    var w5 := Do(w4, Clear(c1));
    ClearFirst(w4, c1);
    StepKeeps(w4, Clear(c1));
    InvIsSound(w5);
    assert OverlooksTwin(w5, c5) by { LastTwinOverlooked(w5, c4, c5); }
    var w6 := Do(w5, Activate(c5));
    StepKeeps(w5, Activate(c5));
    var ws := [w, w1, w2, w3, w4, w5, w6];
    var ss := [Activate(c1), Activate(c2), Activate(c3), Activate(c4), Clear(c1), Activate(c5)];
    assert Run(ws, ss);
  }

  lemma ClearFirst(w: World, c: Context)
    requires Sound(w) && c in w.info && w.info[c].id == 1 && w.slots[1].contexts == [c]
    ensures Do(w, Clear(c)) == w.(slots := w.slots[1 := Slot(0, [])], info := w.info[c := w.info[c].(id := 0)])
  {
    assert RemoveFirst([c], c) == [];
  }

  lemma LastTwinOverlooked(w: World, d: Context, c: Context)
    requires Inv(w) && w.online && c in w.info && w.info[c] == Info(0, Deactivated) && c.apn == d.apn
    requires w.slots[1].cid == 0 && d in w.slots[PS_MAX_CID].contexts
    ensures OverlooksTwin(w, c)
  {
    StandsInItsSlot(w, c);
  }

  /** A listed context is refused to be deactivated exactly when it stands in the last slot. */
  lemma LastSlotRefused(w: World, c: Context)
    requires Inv(w) && w.online && Listed(w, c)
    ensures Sound(w) && c in w.info
    ensures DoDeactivate(w, c).1 == Invalid <==> w.info[c].id == PS_MAX_CID
    ensures w.info[c].id == PS_MAX_CID ==> DoDeactivate(w, c).0 == w
  {
    InvIsSound(w);
    var i :| 0 <= i < |w.slots| && c in w.slots[i].contexts;
    assert SoundSlot(w, w.slots[i]);
    StandsInItsSlot(w, c);
    ActiveInFront(w, c);
    hide Inv, Sound, IsActive;
  }

  /** The fourth of four names activated one after the other cannot be deactivated again. */
  lemma LastSlotIsReachable(w: World, c1: Context, c2: Context, c3: Context, c4: Context)
    requires Fresh(w) && w.online && {c1, c2, c3, c4} <= w.info.Keys
    requires c1.apn != c2.apn && c1.apn != c3.apn && c1.apn != c4.apn
    requires c2.apn != c3.apn && c2.apn != c4.apn && c3.apn != c4.apn
    ensures exists ws: seq<World> ::
      && Run(ws, [Activate(c1), Activate(c2), Activate(c3), Activate(c4)])
      && Inv(ws[4]) && Sound(ws[4]) && c4 in ws[4].info
      && Listed(ws[4], c4) && DoDeactivate(ws[4], c4).1 == Invalid
  {
    hide Inv, Sound, Do, DoDeactivate;
    FreshIsGood(w);
    var w1 := Next(w, c1, 1);
    var w2 := Next(w1, c2, 2);
    var w3 := Next(w2, c3, 3);
    var w4 := Next(w3, c4, 4);
    FillNext(w, c1, 1);
    FillNext(w1, c2, 2);
    FillNext(w2, c3, 3);
    FillNext(w3, c4, 4);
    assert c4 in w4.slots[4].contexts;
    LastSlotRefused(w4, c4);
    var ws := [w, w1, w2, w3, w4];
    assert Run(ws, [Activate(c1), Activate(c2), Activate(c3), Activate(c4)]);
  }

  /** Two contexts of one name: activate both, deactivate the second, clear the first. */
  lemma StaleIdIsReachable(w: World, c: Context, d: Context)
    requires Fresh(w) && w.online && {c, d} <= w.info.Keys && c != d && c.apn == d.apn
    ensures exists ws: seq<World> ::
      && Run(ws, [Activate(c), Activate(d), Deactivate(d), Clear(c)])
      && Inv(ws[4]) && Sound(ws[4]) && d in ws[4].info
      && DoActivate(ws[4], d).1 == AskPlugin && !Listed(DoActivate(ws[4], d).0, d)
  {
    hide *;
    FirstActivated(w, c, d);
    var w1 := Next(w, c, 1);
    SecondActivated(w1, c, d);
    SharedTwice(w1, c, d);
    var w2, w3, w4 := Shared(w1, [c, d], d, Activating), Shared(w1, [c], d, Deactivated), Unlisted(w1, c, d);
    SecondDeactivated(w2, c, d);
    FirstCleared(w1, w3, c, d);
    UnlistedShape(w1, c, d);
    StaleAsked(w4, d);
    FourSteps([w, w1, w2, w3, w4], c, d);
  }

  lemma FirstActivated(w: World, c: Context, d: Context)
    requires Fresh(w) && w.online && {c, d} <= w.info.Keys && c != d
    ensures Sound(w) && 1 <= PS_MAX_CID && |w.slots| == PS_MAX_CID + 1
    ensures
      var w1 := Next(w, c, 1);
      && Do(w, Activate(c)) == w1 && Inv(w1) && Sound(w1) && w1.online && c in w1.info && d in w1.info
      && |w1.slots| == PS_MAX_CID + 1 && w1.slots[1] == Slot(1, [c]) && w1.info[c] == Info(1, Activating)
      && forall i :: 0 <= i <= PS_MAX_CID && i != 1 ==> w1.slots[i] == Slot(0, [])
  {
    FreshIsGood(w);
    hide Inv, Sound, Do;
    FillNext(w, c, 1);
  }

  lemma SharedTwice(w: World, c: Context, d: Context)
    requires |w.slots| == PS_MAX_CID + 1 && w.online && c in w.info && c != d && w.info[c] == Info(1, Activating)
    ensures
      var v := Shared(w, [c, d], d, Activating);
      && |v.slots| == PS_MAX_CID + 1 && v.online && v.slots[1] == Slot(1, [c, d])
      && c in v.info && d in v.info && v.info[c] == Info(1, Activating)
      && Shared(v, [c], d, Deactivated) == Shared(w, [c], d, Deactivated)
      && c in Shared(w, [c], d, Deactivated).info
  {
  }

  lemma UnlistedShape(w: World, c: Context, d: Context)
    requires |w.slots| == PS_MAX_CID + 1 && w.online && c != d
    requires forall i :: 0 <= i <= PS_MAX_CID && i != 1 ==> w.slots[i] == Slot(0, [])
    ensures
      var v := Unlisted(w, c, d);
      && |v.slots| == PS_MAX_CID + 1 && v.online && d in v.info && v.info[d] == Info(1, Deactivated)
      && forall i :: 0 <= i <= PS_MAX_CID ==> v.slots[i].contexts == []
  {
  }

  lemma FourSteps(ws: seq<World>, c: Context, d: Context)
    requires |ws| == 5 && Fresh(ws[0]) && Sound(ws[0]) && Sound(ws[1]) && Sound(ws[2]) && Sound(ws[3])
    requires c in ws[0].info && d in ws[1].info && d in ws[2].info && c in ws[3].info
    requires Do(ws[0], Activate(c)) == ws[1] && Do(ws[1], Activate(d)) == ws[2]
    requires Do(ws[2], Deactivate(d)) == ws[3] && Do(ws[3], Clear(c)) == ws[4]
    requires Inv(ws[4]) && Sound(ws[4]) && d in ws[4].info
    requires DoActivate(ws[4], d).1 == AskPlugin && !Listed(DoActivate(ws[4], d).0, d)
    ensures exists us: seq<World> ::
      && Run(us, [Activate(c), Activate(d), Deactivate(d), Clear(c)])
      && Inv(us[4]) && Sound(us[4]) && d in us[4].info
      && DoActivate(us[4], d).1 == AskPlugin && !Listed(DoActivate(us[4], d).0, d)
  {
    hide Inv, Sound, Do, DoActivate, Listed, Fresh;
    assert Run(ws, [Activate(c), Activate(d), Deactivate(d), Clear(c)]);
  }

  /** Slot 1 lists these contexts, and d has its id. */
  function Shared(w: World, list: seq<Context>, d: Context, state: State): World
    requires |w.slots| > 1
  {
    w.(slots := w.slots[1 := Slot(1, list)], info := w.info[d := Info(1, state)])
  }

  /** Slot 1 is free again, and d has kept its id. */
  function Unlisted(w: World, c: Context, d: Context): World
    requires |w.slots| > 1
  {
    w.(slots := w.slots[1 := Slot(0, [])], info := w.info[d := Info(1, Deactivated)][c := Info(0, Activating)])
  }

  lemma FirstCleared(w1: World, w3: World, c: Context, d: Context)
    requires |w1.slots| == PS_MAX_CID + 1 && w3 == Shared(w1, [c], d, Deactivated) && Inv(w3) && Sound(w3)
    requires c in w1.info && d in w1.info && c != d && w1.info[c] == Info(1, Activating)
    ensures Do(w3, Clear(c)) == Unlisted(w1, c, d) && Inv(Unlisted(w1, c, d)) && Sound(Unlisted(w1, c, d))
  {
    ClearFirst(w3, c);
    ClearKeeps(w3, c);
    InvIsSound(Do(w3, Clear(c)));
  }

  lemma SecondActivated(w: World, c: Context, d: Context)
    requires Inv(w) && Sound(w) && w.online && c in w.info && d in w.info && c != d && c.apn == d.apn
    requires w.slots[1] == Slot(1, [c]) && w.info[c] == Info(1, Activating)
    requires forall i :: 2 <= i <= PS_MAX_CID ==> w.slots[i] == Slot(0, [])
    ensures
      var v := Shared(w, [c, d], d, Activating);
      Do(w, Activate(d)) == v && Inv(v) && Sound(v)
  {
    ActiveInFront(w, d);
    assert Twin([c], d) == Some(c);
    assert TwinFrom(w, d, 0) == Some(c);
    assert [c] + [d] == [c, d];
    StandsInItsSlot(w, d);
    ActivateKeeps(w, d);
    TwinSlot(w, d, c);
    assert w.slots[PS_MAX_CID].contexts == [];
    InvIsSound(Do(w, Activate(d)));
  }

  lemma SecondDeactivated(w: World, c: Context, d: Context)
    requires Inv(w) && Sound(w) && w.online && c in w.info && d in w.info && c != d && c.apn == d.apn
    requires w.slots[1] == Slot(1, [c, d]) && w.info[c] == Info(1, Activating)
    ensures
      var v := Shared(w, [c], d, Deactivated);
      Do(w, Deactivate(d)) == v && Inv(v) && Sound(v)
  {
    assert d in w.slots[1].contexts;
    ActiveInFront(w, d);
    assert TwinFrom(w, d, 0) == Some(c);
    RemoveSecond(c, d);
    DeactivateKeeps(w, d);
    InvIsSound(Do(w, Deactivate(d)));
  }

  lemma RemoveSecond(c: Context, d: Context)
    requires c != d
    ensures RemoveFirst([c, d], d) == [c]
  {
    assert [c, d][1..] == [d] && [d][1..] == [];
    assert RemoveFirst([d], d) == [];
  }

  lemma StaleAsked(w: World, d: Context)
    requires Inv(w) && Sound(w) && w.online && d in w.info && w.info[d] == Info(1, Deactivated)
    requires forall i :: 0 <= i <= PS_MAX_CID ==> w.slots[i].contexts == []
    ensures DoActivate(w, d).1 == AskPlugin && !Listed(DoActivate(w, d).0, d)
  {
    hide Sound, DoActivate;
    AskedButUnlisted(w, d);
  }
}
