/**
  The packet service object: the slot table updated in place.
 */
module Ps {

  import opened PsSlots

  class PacketService {
    var online: bool
    const slots: array<Slot>
    var contextList: seq<Context>
    ghost const known: set<Context>

    ghost function View(): World
      reads this, slots, known
    {
      World(online, slots[..], map c | c in known :: Info(c.id, c.state))
    }

    constructor (ghost known: set<Context>)
      requires forall c <- known :: c.id == 0 && c.state == Deactivated
      ensures Fresh(View()) && fresh(slots) && this.known == known && !online && contextList == []
    {
      online, contextList, this.known := false, [], known;
      slots := new Slot[PS_MAX_CID + 1](_ => Slot(0, []));
      new;
      assert slots[..] == seq(PS_MAX_CID + 1, i => Slot(0, []));
    }

    method IsActiveContext(c: Context) returns (found: bool)
      requires Sound(View())
      ensures found <==> IsActive(View(), c)
    {
      for i := 0 to PS_MAX_CID
        invariant forall j :: 0 <= j < i ==> slots[j].cid == 0 || c !in slots[j].contexts
      {
        if slots[i].cid != 0 {
          var contexts := slots[i].contexts;
          for k := 0 to |contexts|
            invariant c !in contexts[..k]
          {
            if contexts[k] == c {
              assert c in View().slots[i].contexts;
              return true;
            }
          }
        }
      }
      found := false;
    }

    method CopyServiceInfo(dest: Context, src: Context)
      requires slots.Length == PS_MAX_CID + 1 && dest in known && src in known
      modifies dest
      ensures View() == CopyInfo(old(View()), dest, src)
    {
      dest.state := src.state;
      dest.id := src.id;
      assert View().info == old(View().info)[dest := old(View().info)[src]];
    }

    method IsDuplicatedApn(c: Context) returns (duplicated: bool)
      requires Sound(View()) && c in known
      modifies c
      ensures duplicated <==> TwinFrom(old(View()), c, 0).Some?
      ensures View() ==
        if duplicated then CopyInfo(old(View()), c, TwinFrom(old(View()), c, 0).value) else old(View())
    {
      hide Twin;
      ghost var w := View();
      for i := 0 to PS_MAX_CID
        invariant TwinFrom(w, c, 0) == TwinFrom(w, c, i)
        invariant View() == w
      {
        if slots[i].cid != 0 {
          assert SoundSlot(w, w.slots[i]);
          var contexts := slots[i].contexts;
          var k := FirstTwin(contexts, c);
          if k < |contexts| {
            CopyServiceInfo(c, contexts[k]);
            return true;
          }
        }
      }
      duplicated := false;
    }

    /** The position of the first twin, or the end of the list. */
    method FirstTwin(contexts: seq<Context>, c: Context) returns (k: nat)
      ensures k <= |contexts|
      ensures Twin(contexts, c).Some? <==> k < |contexts|
      ensures k < |contexts| ==> Twin(contexts, c).value == contexts[k]
    {
      k := 0;
      while k < |contexts|
        invariant k <= |contexts|
        invariant Twin(contexts, c) == Twin(contexts[k..], c)
      {
        if contexts[k] != c && contexts[k].apn == c.apn {
          return;
        }
        assert contexts[k..][1..] == contexts[k + 1..];
        k := k + 1;
      }
    }

    method SetId(c: Context, id: nat)
      requires c in known
      modifies c`id
      ensures View() == old(View()).(info := old(View()).info[c := old(View()).info[c].(id := id)])
    {
      c.id := id;
      assert View().info == old(View().info)[c := old(View().info)[c].(id := id)];
    }

    method SetState(c: Context, s: State)
      requires c in known
      modifies c`state
      ensures View() == WithState(old(View()), c, s)
    {
      c.state := s;
      assert View().info == old(View().info)[c := old(View().info)[c].(state := s)];
    }

    method SetSlot(i: nat, s: Slot)
      requires i < slots.Length
      modifies slots
      ensures View() == old(View()).(slots := old(View()).slots[i := s])
    {
      slots[i] := s;
    }

    /** Id 0 asks for the first free slot; any other id joins a slot in use. */
    method AssignContextId(c: Context, cid: nat) returns (rv: Return)
      requires Sound(View()) && c in known && cid <= PS_MAX_CID
      modifies slots, c
      ensures cid == 0 ==> (View(), rv) == Assign(old(View()), c)
      ensures cid != 0 && old(slots[cid].cid) == cid ==>
        && rv == Success
        && View() == Append(old(View()), cid, cid, c).(info := old(View()).info[c := old(View()).info[c].(id := cid)])
      ensures cid != 0 && old(slots[cid].cid) != cid ==>
        rv == CidError && View() == old(View())
    {
      if cid == 0 {
        for i := 1 to PS_MAX_CID + 1
          invariant View() == old(View())
          invariant FreeFrom(View().slots, 1) == FreeFrom(View().slots, i)
        {
          if slots[i].cid == 0 {
            SetSlot(i, Slot(i, slots[i].contexts + [c]));
            SetId(c, i);
            return Success;
          }
        }
      } else if slots[cid].cid == cid {
        SetSlot(cid, Slot(cid, slots[cid].contexts + [c]));
        SetId(c, cid);
        return Success;
      }
      rv := CidError;
    }

    method ClearContextId(c: Context) returns (rv: Return)
      requires Sound(View()) && c in known
      modifies slots, c
      ensures (View(), rv) == DoClear(old(View()), c)
    {
      var i := c.id;
      if i == 0 || i > PS_MAX_CID {
        return CidError;
      }
      var list := RemoveFirst(slots[i].contexts, c);
      SetSlot(i, Slot(if |list| == 0 then 0 else slots[i].cid, list));
      SetId(c, 0);
      rv := Success;
    }

    method AddContext(c: Context)
      modifies this`contextList
      ensures contextList == [c] + old(contextList)
    {
      contextList := [c] + contextList;
    }

    method RemoveContext(c: Context)
      requires Sound(View()) && c in known
      modifies this`contextList, slots, c
      ensures View() == DoClear(old(View()), c).0
      ensures contextList == RemoveFirst(old(contextList), c)
    {
      var _ := ClearContextId(c);
      contextList := RemoveFirst(contextList, c);
    }

    method ActivateContext(c: Context) returns (rv: Return)
      requires Sound(View()) && c in known
      modifies slots, c
      ensures (View(), rv) == DoActivate(old(View()), c)
    {
      hide TwinFrom, IsActive;
      ghost var w := View();
      if !online {
        return NetworkNotReady;
      }
      var active := IsActiveContext(c);
      if active {
        return Success;
      }
      var duplicated := IsDuplicatedApn(c);
      if duplicated {
        TwinIsSound(w, c);
        var cid := c.id;
        assert cid == View().info[c].id;
        SetSlot(cid, Slot(slots[cid].cid, slots[cid].contexts + [c]));
        return Success;
      }
      if c.state == Activated || c.state == Activating {
        return Success;
      } else if c.state == Deactivating {
        return IsDeactivating;
      }
      if c.id == 0 {
        var r := AssignContextId(c, 0);
        if r != Success {
          return CidError;
        }
      }
      SetState(c, Activating);
      rv := AskPlugin;
    }

    method DeactivateContext(c: Context) returns (rv: Return)
      requires Sound(View()) && c in known
      modifies slots, c
      ensures (View(), rv) == DoDeactivate(old(View()), c)
    {
      hide TwinFrom, IsActive;
      ghost var w := View();
      if !online {
        return NetworkNotReady;
      }
      var active := IsActiveContext(c);
      if !active {
        return Invalid;
      }
      var duplicated := IsDuplicatedApn(c);
      if duplicated {
        TwinIsSound(w, c);
        var cid := c.id;
        assert cid == View().info[c].id;
        SetSlot(cid, Slot(slots[cid].cid, RemoveFirst(slots[cid].contexts, c)));
        SetState(c, Deactivated);
        return Success;
      }
      if c.state == Deactivated || c.state == Deactivating {
        return Success;
      } else if c.state == Activating {
        return IsActivating;
      }
      SetState(c, Deactivating);
      rv := AskPlugin;
    }
  }

  lemma TwinIsSound(w: World, c: Context)
    requires Sound(w) && TwinFrom(w, c, 0).Some?
    ensures TwinFrom(w, c, 0).value in w.info && w.info[TwinFrom(w, c, 0).value].id <= PS_MAX_CID
  {
    var t := TwinFrom(w, c, 0).value;
    var i :| 0 <= i < PS_MAX_CID && w.slots[i].cid != 0 && t in w.slots[i].contexts;
    assert SoundSlot(w, w.slots[i]);
  }
}
