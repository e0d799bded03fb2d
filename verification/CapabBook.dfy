/**
 * The register without its order: which capabilities there are and what each
 * client holds after any event, told from what was there before it.
 */
module CapabBook {
  import opened Options
  import opened IrcCase
  import opened Capab

  ghost function All(caps: seq<Cap>): set<Cap> {
    set c | c in caps
  }

  // ----- Requests -----------------------------------------------------------

  // What a request has to say about a name, its last word counting.
  function Wish(items: seq<Item>, key: string): Option<bool> {
    if items == [] then None
    else
      var rest := Wish(items[1..], key);
      if rest.Some? then rest else if Fold(items[0].name) == key then Some(!items[0].neg) else None
  }

  // One item that cannot be granted: nobody has the name, or the capability is
  // switched off, withheld from those who ask for it, or kept by those who
  // have it, by all or by those who speak version 302.
  ghost predicate Denied(caps: seq<Cap>, off: set<nat>, v302: bool, it: Item) {
    forall c :: c in caps && c.key == Fold(it.name) ==> DeniedOf(c, off, v302, it.neg)
  }

  predicate DeniedOf(c: Cap, off: set<nat>, v302: bool, neg: bool) {
    c.index in off || (if neg then c.flags.sticky || (v302 && c.flags.sticky302) else c.flags.prohibit)
  }

  ghost predicate Granted(caps: seq<Cap>, off: set<nat>, v302: bool, items: seq<Item>) {
    forall i :: 0 <= i < |items| ==> !Denied(caps, off, v302, items[i])
  }

  function Held(wish: Option<bool>, was: bool): bool {
    if wish.Some? then wish.value else was
  }

  // What a client holds after a request that was granted: of each capability
  // named what the request says last, of others what it held; and what it holds
  // is in force unless the capability is one that takes effect by itself.
  ghost predicate HoldsAfter(caps: seq<Cap>, items: seq<Item>, c: Client, r: Client) {
    && r.v302 == c.v302
    && (forall x :: x !in Indices(caps) ==> (x in r.capab <==> x in c.capab) && (x in r.active <==> x in c.active))
    && (forall k :: k in caps ==>
          && (k.index in r.capab <==> Held(Wish(items, k.key), k.index in c.capab))
          && (k.index in r.active <==>
                if k.flags.proto then k.index in c.active else Held(Wish(items, k.key), k.index in c.active)))
  }

  lemma OneOfAName(caps: seq<Cap>, a: Cap, b: Cap)
    requires Sorted(caps) && a in caps && b in caps && a.key == b.key
    ensures a == b
  {
    forall i, j | 0 <= i < j < |caps| ensures caps[i].key != caps[j].key {
      assert Before(caps[i], caps[j]);
      LessTotal(caps[i].key, caps[j].key);
    }
    var i :| 0 <= i < |caps| && caps[i] == a;
    var j :| 0 <= j < |caps| && caps[j] == b;
  }

  lemma OneAtASlot(caps: seq<Cap>, a: Cap, b: Cap)
    requires Slots(caps) && a in caps && b in caps && a.index == b.index
    ensures a == b
  {
    var i :| 0 <= i < |caps| && caps[i] == a;
    var j :| 0 <= j < |caps| && caps[j] == b;
  }

  // One item taken.
  function Took(c: Client, cap: Cap, neg: bool): Client {
    if neg then
      c.(capab := c.capab - {cap.index}, active := if cap.flags.proto then c.active else c.active - {cap.index})
    else
      c.(capab := c.capab + {cap.index}, active := if cap.flags.proto then c.active else c.active + {cap.index})
  }

  lemma DeniedIff(caps: seq<Cap>, off: set<nat>, v302: bool, it: Item)
    requires Sorted(caps)
    ensures var i := Find(caps, Fold(it.name));
            Denied(caps, off, v302, it) <==> i == |caps| || DeniedOf(caps[i], off, v302, it.neg)
  {
    var i := Find(caps, Fold(it.name));
    if i < |caps| {
      assert caps[i] in caps;
      forall c | c in caps && c.key == Fold(it.name) ensures c == caps[i] {
        OneOfAName(caps, c, caps[i]);
      }
    } else {
      assert forall c :: c in caps ==> c.key != Fold(it.name);
    }
  }

  lemma TookHolds(caps: seq<Cap>, items: seq<Item>, c: Client, cap: Cap, r: Client)
    requires Sorted(caps) && Slots(caps) && items != [] && cap in caps && cap.key == Fold(items[0].name)
    requires HoldsAfter(caps, items[1..], Took(c, cap, items[0].neg), r)
    ensures HoldsAfter(caps, items, c, r)
  {
    assert cap.index in Indices(caps) by { var i :| 0 <= i < |caps| && caps[i] == cap; }
    forall k | k in caps
      ensures k.index in r.capab <==> Held(Wish(items, k.key), k.index in c.capab)
      ensures k.index in r.active <==>
                if k.flags.proto then k.index in c.active else Held(Wish(items, k.key), k.index in c.active)
    {
      if k.key == cap.key { OneOfAName(caps, k, cap); }
      if k.index == cap.index { OneAtASlot(caps, k, cap); }
    }
  }

  // A request is granted if and only if no item is denied, and then it does
  // what it says.
  lemma {:induction false} RequestIs(caps: seq<Cap>, off: set<nat>, items: seq<Item>, c: Client)
    requires Sorted(caps) && Slots(caps)
    ensures Req(caps, off, items, c).Some? <==> Granted(caps, off, c.v302, items)
    ensures Req(caps, off, items, c).Some? ==> HoldsAfter(caps, items, c, Req(caps, off, items, c).value)
    decreases |items|
  {
    if items != [] {
      DeniedIff(caps, off, c.v302, items[0]);
      if !Denied(caps, off, c.v302, items[0]) {
        var i := Find(caps, Fold(items[0].name));
        var next := Took(c, caps[i], items[0].neg);
        RequestIs(caps, off, items[1..], next);
        GrantedNext(caps, off, c.v302, items);
        if Req(caps, off, items, c).Some? {
          TookHolds(caps, items, c, caps[i], Req(caps, off, items, c).value);
        }
      }
    }
  }

  lemma GrantedNext(caps: seq<Cap>, off: set<nat>, v302: bool, items: seq<Item>)
    requires items != []
    ensures Granted(caps, off, v302, items) <==>
              !Denied(caps, off, v302, items[0]) && Granted(caps, off, v302, items[1..])
  {
    assert forall i :: 0 <= i < |items[1..]| ==> items[1..][i] == items[i + 1];
    if Granted(caps, off, v302, items[1..]) && !Denied(caps, off, v302, items[0]) {
      forall i | 0 <= i < |items| ensures !Denied(caps, off, v302, items[i]) {
        if i > 0 { assert !Denied(caps, off, v302, items[1..][i - 1]); }
      }
    }
  }

  // ----- The register -------------------------------------------------------

  // A name is free to be registered as it is, and there is a position for it.
  ghost predicate CanRegister(s: State, name: string, slot: nat) {
    && WellFormed(name) && (forall c :: c in s.caps ==> c.key != Fold(name))
    && slot < 128 && slot !in Indices(s.caps) && forall j :: 0 <= j < slot ==> j in Indices(s.caps)
  }

  // Every client has lost these, and nothing else.
  ghost predicate Lost(was: map<nat, Client>, now: map<nat, Client>, gone: set<nat>) {
    && now.Keys == was.Keys
    && forall c :: c in was ==>
         now[c] == Client(was[c].capab - gone, was[c].active - gone, was[c].v302)
  }

  // What a module's leaving takes: everything it registered.
  ghost function OwnedBy(caps: seq<Cap>, mod: nat): set<nat> {
    set c | c in caps && c.owner == Some(mod) :: c.index
  }

  lemma RegisterIs(s: State, owner: Option<nat>, name: string, flags: Flags, slot: nat)
    requires Inv(s) && CanRegister(s, name, slot)
    ensures var t := Do(s, Register(owner, name, flags));
            t.clients == s.clients && All(t.caps) == All(s.caps) + {Cap(name, Fold(name), slot, owner, flags)}
  {
    ValidNameIff(name);
    FreeIs(s.caps, 0);
    assert Find(s.caps, Fold(name)) == |s.caps|;
    InsertMembers(s.caps, Place(s.caps, Fold(name)), Cap(name, Fold(name), slot, owner, flags));
  }

  // Registering works if and only if the name is a good one, nobody has it and
  // there is a position left.
  lemma RegistersIff(s: State, owner: Option<nat>, name: string, flags: Flags)
    requires Inv(s)
    ensures Do(s, Register(owner, name, flags)) != s <==> exists slot :: CanRegister(s, name, slot)
  {
    ValidNameIff(name);
    FreeIs(s.caps, 0);
    if exists slot :: CanRegister(s, name, slot) {
      var slot :| CanRegister(s, name, slot);
      RegisterIs(s, owner, name, flags, slot);
      assert Cap(name, Fold(name), slot, owner, flags) in All(Do(s, Register(owner, name, flags)).caps);
    } else if Do(s, Register(owner, name, flags)) != s {
      var i := Find(s.caps, Fold(name));
      assert forall c :: c in s.caps ==> c.key != Fold(name);
      assert CanRegister(s, name, Free(s.caps, 0).value);
    }
  }

  lemma RemovedIs(s: State, i: nat)
    requires Slots(s.caps) && i < |s.caps|
    ensures var t := Removed(s, i);
            All(t.caps) == All(s.caps) - {s.caps[i]} && Lost(s.clients, t.clients, {s.caps[i].index})
  {
    RemoveMembers(s.caps, i);
  }

  // A module takes back a name if and only if it registered it.
  lemma UnregisterIs(s: State, mod: nat, name: string)
    requires Inv(s)
    ensures var t := Do(s, Unregister(mod, name));
            && (forall c :: c in All(t.caps) <==> c in All(s.caps) && !(c.key == Fold(name) && c.owner == Some(mod)))
            && Lost(s.clients, t.clients, set c | c in s.caps && c.key == Fold(name) && c.owner == Some(mod) :: c.index)
  {
    var i := Find(s.caps, Fold(name));
    var gone := set c | c in s.caps && c.key == Fold(name) && c.owner == Some(mod) :: c.index;
    if i < |s.caps| {
      assert s.caps[i] in s.caps;
      forall c | c in s.caps && c.key == Fold(name) ensures c == s.caps[i] {
        OneOfAName(s.caps, c, s.caps[i]);
      }
      if s.caps[i].owner == Some(mod) {
        RemovedIs(s, i);
        assert gone == {s.caps[i].index};
      } else {
        assert gone == {};
      }
    } else {
      assert forall c :: c in s.caps ==> c.key != Fold(name);
      assert gone == {};
    }
  }

  lemma LostBoth(a: map<nat, Client>, b: map<nat, Client>, c: map<nat, Client>, x: set<nat>, y: set<nat>)
    requires Lost(a, b, x) && Lost(b, c, y)
    ensures Lost(a, c, x + y)
  {
    forall k | k in a ensures c[k] == Client(a[k].capab - (x + y), a[k].active - (x + y), a[k].v302) {
      assert a[k].capab - x - y == a[k].capab - (x + y);
      assert a[k].active - x - y == a[k].active - (x + y);
    }
  }

  // A module that leaves takes exactly what it registered, from every client
  // too.
  lemma {:induction false} DroppedIs(s: State, k: nat, mod: nat)
    requires Inv(s) && k <= |s.caps| && forall i :: 0 <= i < k ==> s.caps[i].owner != Some(mod)
    ensures var t := Dropped(s, k, mod);
            && (forall c :: c in All(t.caps) <==> c in All(s.caps) && c.owner != Some(mod))
            && Lost(s.clients, t.clients, OwnedBy(s.caps, mod))
    decreases |s.caps| - k
  {
    if k == |s.caps| {
      assert OwnedBy(s.caps, mod) == {};
    } else if s.caps[k].owner == Some(mod) {
      var u := Removed(s, k);
      RemovedIs(s, k);
      RemovedInv(s, k);
      assert forall i :: 0 <= i < k ==> u.caps[i] == s.caps[i];
      DroppedIs(u, k, mod);
      LostBoth(s.clients, u.clients, Dropped(u, k, mod).clients, {s.caps[k].index}, OwnedBy(u.caps, mod));
      OwnedLess(s.caps, u.caps, s.caps[k], mod);
    } else {
      DroppedIs(s, k + 1, mod);
    }
  }

  lemma OwnedLess(caps: seq<Cap>, rest: seq<Cap>, c: Cap, mod: nat)
    requires c in caps && c.owner == Some(mod) && All(rest) == All(caps) - {c}
    ensures OwnedBy(caps, mod) == {c.index} + OwnedBy(rest, mod)
  {
    assert forall k :: k in rest <==> k in All(rest);
    assert forall k :: k in caps <==> k in All(caps);
    forall x | x in OwnedBy(caps, mod) ensures x in {c.index} + OwnedBy(rest, mod) {
      var k :| k in caps && k.owner == Some(mod) && k.index == x;
      if k != c { assert k in rest; }
    }
    forall x | x in OwnedBy(rest, mod) ensures x in OwnedBy(caps, mod) {
      var k :| k in rest && k.owner == Some(mod) && k.index == x;
      assert k in caps;
    }
    assert c.index in OwnedBy(caps, mod);
  }

  // ----- Runs ---------------------------------------------------------------

  // A capability after an event: as it was, but for being withheld or allowed.
  function Later(cap: Cap, a: Action): Cap {
    if a == Withhold(cap.index) then cap.(flags := cap.flags.(prohibit := true))
    else if a == Allow(cap.index) then cap.(flags := cap.flags.(prohibit := false))
    else cap
  }

  // The module that registered it takes it back, or leaves.
  predicate Ends(a: Action, cap: Cap) {
    match a
    case Drop(mod) => cap.owner == Some(mod)
    case Unregister(mod, name) => cap.owner == Some(mod) && Fold(name) == cap.key
    case _ => false
  }

  lemma MarkStays(s: State, a: Action, cap: Cap)
    requires cap in s.caps && (a.Withhold? || a.Allow?)
    ensures Later(cap, a) in Do(s, a).caps
  {
    var i :| 0 <= i < |s.caps| && s.caps[i] == cap;
    assert cap.index in Indices(s.caps);
    if a.Allow? || a.index in Indices(s.caps) {
      MarkedIs(s.caps, a.index, a.Withhold?, i);
      assert Do(s, a).caps[i] in Do(s, a).caps;
    }
  }

  lemma RegisterStays(s: State, a: Action, cap: Cap)
    requires cap in s.caps && a.Register?
    ensures cap in Do(s, a).caps
  {
    if Do(s, a) != s {
      InsertMembers(s.caps, Place(s.caps, Fold(a.name)),
                    Cap(a.name, Fold(a.name), Free(s.caps, 0).value, a.owner, a.flags));
    }
  }

  // Whatever happens, a capability stays as it was registered, but for being
  // withheld or allowed, if and only if it is not its own module that takes it
  // back or leaves.
  lemma StaysIff(s: State, a: Action, cap: Cap)
    requires Inv(s) && cap in s.caps
    ensures Later(cap, a) in Do(s, a).caps <==> !Ends(a, cap)
  {
    if a.Withhold? || a.Allow? {
      MarkStays(s, a, cap);
    } else if a.Register? {
      RegisterStays(s, a, cap);
    } else if a.Unregister? {
      UnregisterIs(s, a.mod, a.name);
      assert cap in Do(s, a).caps <==> cap in All(Do(s, a).caps);
    } else if a.Drop? {
      DroppedIs(s, 0, a.mod);
      assert cap in Do(s, a).caps <==> cap in All(Do(s, a).caps);
    }
  }

  lemma {:induction false} MarkedIs(caps: seq<Cap>, index: nat, prohibit: bool, i: nat)
    requires i < |caps|
    ensures Marked(caps, index, prohibit)[i] ==
            if caps[i].index == index then caps[i].(flags := caps[i].flags.(prohibit := prohibit)) else caps[i]
    decreases |caps|
  {
    if i > 0 {
      MarkedIs(caps[1..], index, prohibit, i - 1);
    }
  }

  // Withholding a capability takes it from everyone.
  lemma WithholdIs(s: State, index: nat)
    requires index in Indices(s.caps)
    ensures Lost(s.clients, Do(s, Withhold(index)).clients, {index})
  {
  }

  // ----- Clients ------------------------------------------------------------

  // A client comes with nothing and goes for good. Asking for the list as
  // version 302 marks it as one of those, with the notices of changes in
  // force, which is the capability at position 13. Nothing of this, and no
  // request, concerns another client.
  lemma ClientsAre(s: State, c: nat, d: nat, v302: bool, items: seq<Item>, off: set<nat>)
    requires d != c
    ensures Do(s, Join(c)).clients == s.clients[c := Client({}, {}, false)]
    ensures c !in Do(s, Quit(c)).clients && (d in s.clients ==> d in Do(s, Quit(c)).clients)
    ensures d in s.clients ==> Do(s, Quit(c)).clients[d] == s.clients[d]
    ensures c in s.clients ==>
              var was, now := s.clients[c], Do(s, Ls(c, v302)).clients;
              now == if v302 then s.clients[c := Client(was.capab, was.active + {13}, true)] else s.clients
    ensures d in s.clients ==> d in Do(s, Request(c, items, off)).clients
    ensures d in s.clients ==> Do(s, Request(c, items, off)).clients[d] == s.clients[d]
  {
  }
}
