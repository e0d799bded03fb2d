/**
 * The capability register as the server keeps it: a list in order of name, a
 * table of the positions in use, and a walk over the clients when one goes.
 */
module CapabServer {
  import opened Options
  import opened IrcCase
  import opened C = Capab

  class Register {
    var caps: seq<Cap>
    const byIndex: array<bool>
    var count: nat
    var clients: map<nat, Client>

    ghost function View(): State
      reads this
    {
      State(caps, clients)
    }

    ghost predicate Valid()
      reads this, byIndex
    {
      && Sorted(caps) && Slots(caps) && count == |caps|
      && (forall c :: c in caps ==> Named(c))
      && byIndex.Length == CAP_MAX
      && forall i :: 0 <= i < CAP_MAX ==> (byIndex[i] <==> i in Indices(caps))
    }

    constructor ()
      ensures Valid() && View() == State([], map[]) && fresh(byIndex)
    {
      caps, count, clients := [], 0, map[];
      byIndex := new bool[CAP_MAX](_ => false);
    }

    method FindName(name: string) returns (i: nat)
      requires Valid()
      ensures i == Find(caps, Fold(name))
    {
      i := 0;
      assert caps[0..] == caps;
      while i < |caps|
        invariant i <= |caps| && Find(caps, Fold(name)) == i + Find(caps[i..], Fold(name))
      {
        assert Named(caps[i]);
        var same := Same(caps[i].name, name);
        if same {
          return;
        }
        assert caps[i..][1..] == caps[i + 1..];
        i := i + 1;
      }
    }

    method AllocIndex() returns (slot: Option<nat>)
      requires Valid()
      ensures slot == Free(caps, 0)
    {
      var i := 0;
      while i < CAP_MAX
        invariant 0 <= i <= CAP_MAX && Free(caps, 0) == Free(caps, i)
      {
        if !byIndex[i] {
          return Some(i);
        }
        i := i + 1;
      }
      return None;
    }

    method Link(c: Cap)
      requires Valid() && Named(c) && c.index < CAP_MAX && c.index !in Indices(caps) && Find(caps, c.key) == |caps|
      modifies this, byIndex
      ensures Valid() && clients == old(clients)
      ensures var i := Place(old(caps), c.key); caps == old(caps)[..i] + [c] + old(caps)[i..]
    {
      var i := 0;
      assert caps[0..] == caps;
      while i < |caps| && !Less(c.key, caps[i].key)
        invariant i <= |caps| && Place(caps, c.key) == i + Place(caps[i..], c.key)
      {
        assert caps[i..][1..] == caps[i + 1..];
        i := i + 1;
      }
      PlaceFits(caps, i, c);
      InsertSorted(caps, i, c);
      InsertSlots(caps, i, c);
      InsertMembers(caps, i, c);
      caps := caps[..i] + [c] + caps[i..];
      byIndex[c.index] := true;
      count := count + 1;
    }

    method Unlink(i: nat)
      requires Valid() && i < |caps|
      modifies this, byIndex
      ensures Valid() && clients == old(clients) && caps == Without(old(caps), i)
    {
      RemoveSorted(caps, i);
      RemoveMembers(caps, i);
      byIndex[caps[i].index] := false;
      caps := caps[..i] + caps[i + 1..];
      count := count - 1;
    }

    method Add(owner: Option<nat>, name: string, flags: Flags) returns (index: Option<nat>)
      requires Valid()
      modifies this, byIndex
      ensures Valid() && View() == Do(old(View()), C.Register(owner, name, flags))
      ensures index == if ValidName(name) && Find(old(caps), Fold(name)) == |old(caps)| then
                         Free(old(caps), 0) else None
    {
      var valid := NameValid(name);
      if !valid {
        return None;
      }
      var i := FindName(name);
      if i < |caps| {
        return None;
      }
      index := AllocIndex();
      if index.None? {
        return;
      }
      FreeIs(caps, 0);
      Link(Cap(name, Fold(name), index.value, owner, flags));
    }

    // Every client loses the capability, told or not, and keeps all others.
    method ClearAll(index: nat)
      modifies this`clients
      ensures clients.Keys == old(clients).Keys
      ensures forall c :: c in clients ==> Keeps(old(clients)[c], clients[c], index)
    {
      var todo := clients.Keys;
      while todo != {}
        invariant todo <= clients.Keys == old(clients).Keys
        invariant forall c :: c in todo ==> clients[c] == old(clients)[c]
        invariant forall c :: c in clients && c !in todo ==> Keeps(old(clients)[c], clients[c], index)
      {
        var c :| c in todo;
        clients := clients[c := Cleared(clients[c], index)];
        todo := todo - {c};
      }
    }

    method Remove(mod: nat, name: string) returns (found: bool)
      requires Valid()
      modifies this, byIndex
      ensures Valid() && View() == Do(old(View()), C.Unregister(mod, name))
      ensures found == exists c :: c in old(caps) && c.key == Fold(name) && c.owner == Some(mod)
    {
      ghost var k := Fold(name);
      var i := FindName(name);
      OneOfEach(caps, k);
      if i < |caps| && caps[i].owner == Some(mod) {
        assert caps[i] in caps;
        ClearAll(caps[i].index);
        KeepsAll(old(clients), clients, caps[i].index);
        Unlink(i);
        return true;
      }
      return false;
    }

    method DropModule(mod: nat)
      requires Valid()
      modifies this, byIndex
      ensures Valid() && View() == Do(old(View()), C.Drop(mod))
    {
      ghost var goal := Do(View(), C.Drop(mod));
      var k := 0;
      while k < |caps|
        invariant k <= |caps| && Valid() && Dropped(View(), k, mod) == goal
        decreases |caps| - k
      {
        if caps[k].owner == Some(mod) {
          ghost var was := clients;
          ClearAll(caps[k].index);
          KeepsAll(was, clients, caps[k].index);
          Unlink(k);
        } else {
          k := k + 1;
        }
      }
    }
  }

  // A client has what it had, asked for and in force, but for one capability.
  ghost predicate Keeps(was: Client, now: Client, index: nat) {
    && now.v302 == was.v302
    && (forall j :: j in now.capab <==> j in was.capab && j != index)
    && (forall j :: j in now.active <==> j in was.active && j != index)
  }

  lemma KeepsAll(was: map<nat, Client>, now: map<nat, Client>, index: nat)
    requires now.Keys == was.Keys && forall c :: c in now ==> Keeps(was[c], now[c], index)
    ensures now == Del(was, index)
  {
    forall c | c in now ensures now[c] == Cleared(was[c], index) {
      assert Keeps(was[c], now[c], index);
      assert now[c].capab == was[c].capab - {index} && now[c].active == was[c].active - {index};
    }
  }

  // A name is registered once, so the first with it is the only one.
  lemma OneOfEach(caps: seq<Cap>, k: string)
    requires Sorted(caps)
    ensures var i := Find(caps, k); forall c :: c in caps && c.key == k ==> i < |caps| && c == caps[i]
  {
    var i := Find(caps, k);
    forall c | c in caps && c.key == k ensures i < |caps| && c == caps[i] {
      var j :| 0 <= j < |caps| && caps[j] == c;
      if i < j {
        assert Before(caps[i], caps[j]);
        LessTotal(k, k);
      }
    }
  }
}
