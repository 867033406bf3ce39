/**
  What activating and deactivating a PDP context answers, and when the plug-in is asked, in terms of
  which contexts are listed.
 */
module PsAnswers {
  import opened Wrappers
  import opened PsSlots

  /** No other listed context has its access point name. */
  predicate Alone(w: World, c: Context) {
    forall d <- w.info :: Listed(w, d) && d.apn == c.apn ==> d == c
  }

  /** Listed in a slot that the scans visit. */
  predicate Seen(w: World, c: Context)
    requires c in w.info
  {
    Listed(w, c) && w.info[c].id < 4
  }

  lemma SeenIsActive(w: World, c: Context)
    requires Inv(w) && c in w.info
    ensures IsActive(w, c) <==> Seen(w, c)
  {
    StandsInItsSlot(w, c);
    ActiveInFront(w, c);
    hide Inv, IsActive;
  }

  lemma ListedIsKnown(w: World, i: nat, c: Context)
    requires Inv(w) && Sound(w) && i <= PS_MAX_CID && c in w.slots[i].contexts
    ensures c in w.info && w.info[c].id == i && Listed(w, c) && w.slots[i].cid == i != 0
  {
    assert SoundSlot(w, w.slots[i]) && GoodSlot(w, i);
    StandsInItsSlot(w, c);
  }

  /** A twin that the scan finds is a listed context of the name, seen in its slot. */
  lemma TwinIsListed(w: World, c: Context, t: Context)
    requires Inv(w) && Sound(w) && c in w.info && TwinFrom(w, c, 0) == Some(t)
    ensures t in w.info && Seen(w, t) && t.apn == c.apn && t != c
  {
    var i :| 0 <= i < PS_MAX_CID && w.slots[i].cid != 0 && t in w.slots[i].contexts;
    ListedIsKnown(w, i, t);
  }

  lemma NoTwinListed(w: World, c: Context, d: Context)
    requires Inv(w) && Sound(w) && c in w.info && TwinFrom(w, c, 0).None?
    requires d in w.info && Seen(w, d) && d.apn == c.apn
    ensures d == c
  {
    StandsInItsSlot(w, d);
    assert GoodSlot(w, w.info[d].id);
  }

  /** For a context in a slot that the scans visit, the scan finds a twin exactly when one is listed. */
  lemma TwinExactly(w: World, c: Context)
    requires Inv(w) && Sound(w) && c in w.info && Seen(w, c)
    ensures TwinFrom(w, c, 0).None? <==> Alone(w, c)
  {
    match TwinFrom(w, c, 0)
    case Some(t) => TwinIsListed(w, c, t);
    case None =>
      forall d | d in w.info && Listed(w, d) && d.apn == c.apn
        ensures d == c
      {
        SameNameSameSlot(w, c, d);
        NoTwinListed(w, c, d);
      }
  }

  lemma SameNameSameSlot(w: World, c: Context, d: Context)
    requires Inv(w) && c in w.info && d in w.info && Listed(w, c) && Listed(w, d) && d.apn == c.apn
    ensures w.info[d].id == w.info[c].id
  {
    IdFindsName(w, c, d);
    StandsInItsSlot(w, c);
    StandsInItsSlot(w, d);
    hide Inv;
  }

  // ---------------------------------------------------------------------------------------
  // Deactivating.
  // ---------------------------------------------------------------------------------------

  /**
    A context that is the only listed one of its name: the plug-in is asked exactly when it is
    activated; otherwise nothing changes, and only a context being activated is an error.
   */
  lemma DeactivateAlone(w: World, c: Context)
    requires Inv(w) && Sound(w) && w.online && c in w.info && Seen(w, c) && Alone(w, c)
    ensures
      var info := w.info[c];
      DoDeactivate(w, c) ==
        match info.state
        case Activated => (w.(info := w.info[c := Info(info.id, Deactivating)]), AskPlugin)
        case Activating => (w, IsActivating)
        case Deactivating => (w, Success)
        case Deactivated => (w, Success)
  {
    SeenIsActive(w, c);
    TwinExactly(w, c);
    hide Inv, Sound, IsActive, TwinFrom, Seen, Alone;
  }

  lemma RemovedOnly(w: World, v: World, i: nat, c: Context)
    requires |w.slots| == PS_MAX_CID + 1 && i <= PS_MAX_CID && Once(w.slots[i].contexts)
    requires forall j :: 0 <= j <= PS_MAX_CID && j != i ==> c !in w.slots[j].contexts
    requires v.slots == w.slots[i := w.slots[i].(contexts := RemoveFirst(w.slots[i].contexts, c))]
    ensures !Listed(v, c)
    ensures forall d :: d in w.info && d != c ==> (Listed(v, d) <==> Listed(w, d))
  {
    RemoveOnce(w.slots[i].contexts, c);
    hide Once;
    forall d | d in w.info && d != c
      ensures Listed(v, d) <==> Listed(w, d)
    {
      assert forall j :: 0 <= j <= PS_MAX_CID ==> (d in v.slots[j].contexts <==> d in w.slots[j].contexts);
    }
  }

  /** A context beside others of its name is unlisted and deactivated without asking; the others stay listed. */
  lemma DeactivateBeside(w: World, c: Context)
    requires Inv(w) && Sound(w) && w.online && c in w.info && Seen(w, c) && !Alone(w, c)
    ensures
      var v := DoDeactivate(w, c).0;
      && DoDeactivate(w, c).1 == Success && v.online
      && v.info == w.info[c := Info(w.info[c].id, Deactivated)]
      && !Listed(v, c) && forall d <- w.info :: d != c ==> (Listed(v, d) <==> Listed(w, d))
  {
    SeenIsActive(w, c);
    TwinExactly(w, c);
    var t := TwinFrom(w, c, 0).value;
    TwinIsListed(w, c, t);
    SameNameSameSlot(w, c, t);
    StandsInItsSlot(w, c);
    var i := w.info[c].id;
    assert GoodSlot(w, i);
    hide Inv, Sound, IsActive, TwinFrom, Once, Listed, Alone, RemoveFirst;
    RemovedOnly(w, DoDeactivate(w, c).0, i, c);
  }

  /** Without a network, or for a context in no slot that the scans visit, nothing happens. */
  lemma DeactivateRefused(w: World, c: Context)
    requires Inv(w) && Sound(w) && c in w.info && (!w.online || !Seen(w, c))
    ensures DoDeactivate(w, c) == (w, if w.online then Invalid else NetworkNotReady)
  {
    SeenIsActive(w, c);
    hide Inv, Sound, IsActive, TwinFrom, Seen;
  }

  // ---------------------------------------------------------------------------------------
  // Activating.
  // ---------------------------------------------------------------------------------------

  /** Without a network, or for a context in a slot that the scans visit, nothing happens. */
  lemma ActivateSettled(w: World, c: Context)
    requires Inv(w) && Sound(w) && c in w.info && (!w.online || Seen(w, c))
    ensures DoActivate(w, c) == (w, if w.online then Success else NetworkNotReady)
  {
    SeenIsActive(w, c);
    hide Inv, Sound, IsActive, TwinFrom, Seen, Assign;
  }

  /** A context whose name is listed already joins the slot, with the id and state of the first there. */
  lemma ActivateBeside(w: World, c: Context, d: Context)
    requires Inv(w) && Sound(w) && w.online && c in w.info && !Seen(w, c)
    requires d in w.info && Seen(w, d) && d.apn == c.apn
    ensures
      var i := w.info[d].id;
      && 1 <= i < 4 && w.slots[i].contexts != [] && w.slots[i].contexts[0] in w.info
      && DoActivate(w, c) == (
           w.(slots := w.slots[i := Slot(i, w.slots[i].contexts + [c])],
              info := w.info[c := w.info[w.slots[i].contexts[0]]]), Success)
  {
    SeenIsActive(w, c);
    StandsInItsSlot(w, d);
    if TwinFrom(w, c, 0).None? {
      NoTwinListed(w, c, d);
    }
    var t := TwinFrom(w, c, 0).value;
    var i := w.info[d].id;
    TwinIsListed(w, c, t);
    SameNameSameSlot(w, d, t);
    FirstTwin(w, c, i, t);
    hide Inv, Sound, IsActive, TwinFrom;
  }

  lemma {:induction false} TwinSlotOf(w: World, c: Context, i: nat, t: Context) returns (j: nat)
    requires |w.slots| == PS_MAX_CID + 1 && i <= PS_MAX_CID && TwinFrom(w, c, i) == Some(t)
    ensures j < PS_MAX_CID && w.slots[j].cid != 0 && Twin(w.slots[j].contexts, c) == Some(t)
    decreases PS_MAX_CID - i
  {
    if w.slots[i].cid != 0 && Twin(w.slots[i].contexts, c).Some? {
      j := i;
    } else {
      j := TwinSlotOf(w, c, i + 1, t);
    }
  }

  lemma FirstOfName(list: seq<Context>, c: Context, t: Context)
    requires Twin(list, c) == Some(t) && c !in list && forall d <- list :: d.apn == c.apn
    ensures list != [] && list[0] == t
  {
  }

  lemma UnseenIsNotThere(w: World, c: Context, i: nat)
    requires Inv(w) && c in w.info && i < 4 && !Seen(w, c)
    ensures |w.slots| == PS_MAX_CID + 1 && c !in w.slots[i].contexts
  {
    StandsInItsSlot(w, c);
  }

  lemma FirstTwin(w: World, c: Context, i: nat, t: Context)
    requires Inv(w) && Sound(w) && c in w.info && TwinFrom(w, c, 0) == Some(t)
    requires t in w.info && Seen(w, t) && w.info[t].id == i && !Seen(w, c)
    ensures i <= PS_MAX_CID && w.slots[i].contexts != [] && w.slots[i].contexts[0] == t && w.slots[i].cid == i
  {
    OrderedShape(w);
    var j := TwinSlotOf(w, c, 0, t);
    ListedIsKnown(w, j, t);
    UnseenIsNotThere(w, c, i);
    TwinSlot(w, c, t);
    hide Inv, Sound, TwinFrom, Apart, Seen;
    FirstOfName(w.slots[i].contexts, c, t);
  }

  /** Where no slot that the scans visit has the name, the state decides, and for a new context the free slots. */
  lemma ActivateFirst(w: World, c: Context)
    requires Inv(w) && Sound(w) && w.online && c in w.info && !Seen(w, c)
    requires forall d <- w.info :: Seen(w, d) ==> d.apn != c.apn
    ensures
      var info := w.info[c];
      var (v, r) := DoActivate(w, c);
      match info.state
      case Activated => (v, r) == (w, Success)
      case Activating => (v, r) == (w, Success)
      case Deactivating => (v, r) == (w, IsDeactivating)
      case Deactivated =>
        if info.id != 0 then
          (v, r) == (w.(info := w.info[c := Info(info.id, Activating)]), AskPlugin)
        else if forall i :: 1 <= i <= 4 ==> w.slots[i].cid != 0 then (v, r) == (w, CidError)
        else
          && r == AskPlugin && 1 <= v.info[c].id <= 4 && w.slots[v.info[c].id].cid == 0
          && (forall i :: 1 <= i < v.info[c].id ==> w.slots[i].cid != 0)
          && v == w.(slots := w.slots[v.info[c].id := Slot(v.info[c].id, [c])],
                     info := w.info[c := Info(v.info[c].id, Activating)])
  {
    SeenIsActive(w, c);
    if TwinFrom(w, c, 0).Some? {
      TwinIsListed(w, c, TwinFrom(w, c, 0).value);
    }
    if FreeFrom(w.slots, 1).Some? {
      assert GoodSlot(w, FreeFrom(w.slots, 1).value);
      assert [] + [c] == [c];
    }
    hide Inv, Sound, IsActive, TwinFrom, FreeFrom, Seen;
  }

  // ---------------------------------------------------------------------------------------
  // Clearing.
  // ---------------------------------------------------------------------------------------

  lemma MarkedExactly(w: World)
    requires Inv(w)
    ensures |w.slots| == 5 && forall i :: 0 <= i <= 4 ==> (w.slots[i].cid == 0 <==> w.slots[i].contexts == [])
  {
    forall i | 0 <= i <= 4
      ensures w.slots[i].cid == 0 <==> w.slots[i].contexts == []
    {
      assert GoodSlot(w, i);
    }
  }

  /**
    An id outside the slots is refused. Otherwise the id is taken back, the state stays, and only that
    context is unlisted; a slot stays marked exactly as long as it lists a context.
   */
  lemma ClearUnlists(w: World, c: Context)
    requires Inv(w) && Sound(w) && c in w.info
    ensures
      var id := w.info[c].id;
      var (v, r) := DoClear(w, c);
      if id == 0 || id > 4 then (v, r) == (w, CidError)
      else
        && r == Success && v.online == w.online && |v.slots| == 5
        && v.info == w.info[c := Info(0, w.info[c].state)]
        && !Listed(v, c) && (forall d <- w.info :: d != c ==> (Listed(v, d) <==> Listed(w, d)))
        && (forall i :: 0 <= i <= 4 ==> (v.slots[i].cid == 0 <==> v.slots[i].contexts == []))
  {
    ClearKeeps(w, c);
    MarkedExactly(DoClear(w, c).0);
    if 1 <= w.info[c].id <= 4 {
      ClearedOnly(w, c);
    }
    hide Inv, Sound, Listed;
  }

  lemma ClearedOnly(w: World, c: Context)
    requires Inv(w) && Sound(w) && c in w.info && 1 <= w.info[c].id <= 4
    ensures forall d <- w.info :: d != c ==> (Listed(DoClear(w, c).0, d) <==> Listed(w, d))
  {
    var i, v := w.info[c].id, DoClear(w, c).0;
    assert GoodSlot(w, i);
    StandsInItsSlot(w, c);
    RemoveOnce(w.slots[i].contexts, c);
    hide Inv, Sound, Once, RemoveFirst, Carry, Uniform;
    forall d | d in w.info && d != c
      ensures Listed(v, d) <==> Listed(w, d)
    {
      assert forall j :: 0 <= j <= PS_MAX_CID ==> (d in v.slots[j].contexts <==> d in w.slots[j].contexts);
    }
  }

  // ---------------------------------------------------------------------------------------
  // Over whole runs.
  // ---------------------------------------------------------------------------------------

  lemma RunPrefix(ws: seq<World>, ss: seq<Step>, i: nat)
    requires Run(ws, ss) && i <= |ss|
    ensures Run(ws[..i + 1], ss[..i])
  {
    hide Sound, Do, Fresh;
    var vs, ts := ws[..i + 1], ss[..i];
    assert forall j :: 0 <= j <= i ==> vs[j] == ws[j];
    assert forall j :: 0 <= j < i ==> ts[j] == ss[j];
  }

  /**
    In every run that overlooks no context in the last slot: deactivating a context in a slot that the
    scans visit asks the plug-in exactly when the context is activated and the last of its name.
   */
  lemma PluginAskedAtTheLast(ws: seq<World>, ss: seq<Step>, i: nat, c: Context)
    requires Run(ws, ss) && i < |ss| && ss[i] == Deactivate(c)
    requires forall j :: 0 <= j < i && ss[j].Activate? ==> !OverlooksTwin(ws[j], ss[j].c)
    requires c in ws[i].info && ws[i].online && Seen(ws[i], c)
    ensures Sound(ws[i])
    ensures DoDeactivate(ws[i], c).1 == AskPlugin <==> ws[i].info[c].state == Activated && Alone(ws[i], c)
  {
    RunPrefix(ws, ss, i);
    assert ws[..i + 1][i] == ws[i] && forall j :: 0 <= j < i ==> ss[..i][j] == ss[j] && ws[..i + 1][j] == ws[j];
    hide Inv, Sound, OverlooksTwin, Do, Fresh, Alone, DoDeactivate;
    RunStaysInOrder(ws[..i + 1], ss[..i]);
    if Alone(ws[i], c) {
      DeactivateAlone(ws[i], c);
    } else {
      DeactivateBeside(ws[i], c);
    }
  }
}
