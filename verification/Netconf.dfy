/**
 * Network-wide configuration: timestamped settings that reach every server in
 * whatever order the network delivers them, and when they all end up agreeing.
 */
module Netconf {
  import opened Options
  import opened IrcCase

  datatype Item = Item(value: string, ts: int)

  // Settings by key; keys that differ in case only are the same key.
  type Store = map<string, Item>

  // An empty value asks for the key to be deleted.
  datatype Update = Update(key: string, value: string, ts: int)

  datatype Code = Rejected | Created | Timestamp | Changed | Deleted

  // A callback: the key, what it was and what it is.
  datatype Call = Call(key: string, was: Option<string>, now: Option<string>)

  function At(s: Store, k: string): Option<Item> {
    if k in s then Some(s[k]) else None
  }

  function Apply(s: Store, u: Update): Store {
    var k := Fold(u.key);
    if u.value == "" then
      if k in s && u.ts > s[k].ts then s - {k} else s
    else if k in s && u.ts <= s[k].ts then
      s
    else
      s[k := Item(u.value, u.ts)]
  }

  function CodeOf(s: Store, u: Update): Code {
    var k := Fold(u.key);
    if u.value == "" then
      if k in s && u.ts > s[k].ts then Deleted else Rejected
    else if k !in s then
      Created
    else if u.ts <= s[k].ts then
      Rejected
    else if Fold(s[k].value) == Fold(u.value) then
      Timestamp
    else
      Changed
  }

  function Final(d: seq<Update>): Store {
    if d == [] then map[] else Apply(Final(d[..|d| - 1]), d[|d| - 1])
  }

  // ----- Convergence --------------------------------------------------------

  predicate For(u: Update, k: string) {
    Fold(u.key) == k
  }

  // Everything in `all` is delivered, in any order and as often as you like.
  ghost predicate Delivers(d: seq<Update>, all: set<Update>) {
    forall u :: u in d <==> u in all
  }

  ghost predicate Newest(all: set<Update>, k: string, u: Update) {
    u in all && For(u, k) && forall v :: v in all && For(v, k) ==> v.ts <= u.ts
  }

  // The last word on a key is to set it, to one value.
  ghost predicate LastWord(all: set<Update>, k: string, u: Update) {
    && Newest(all, k, u) && u.value != ""
    && forall v :: v in all && For(v, k) && v.value != "" && v.ts == u.ts ==> v.value == u.value
  }

  lemma FinalNext(d: seq<Update>, u: Update)
    ensures Final(d + [u]) == Apply(Final(d), u)
  {
    assert (d + [u])[..|d|] == d;
  }

  // What is stored was delivered.
  lemma {:induction false} StoredWasDelivered(d: seq<Update>, k: string)
    ensures k in Final(d) ==>
              exists u :: u in d && For(u, k) && u.value == Final(d)[k].value != "" && u.ts == Final(d)[k].ts
  {
    if d != [] {
      var n := |d| - 1;
      StoredWasDelivered(d[..n], k);
      if k in Final(d) {
        if k in Final(d[..n]) && Final(d)[k] == Final(d[..n])[k] {
          var u :| u in d[..n] && For(u, k) && u.value == Final(d[..n])[k].value != "" && u.ts == Final(d[..n])[k].ts;
          assert u in d;
        } else {
          assert d[n] in d;
        }
      }
    }
  }

  lemma {:induction false} NewestStands(d: seq<Update>, all: set<Update>, k: string, u: Update)
    requires LastWord(all, k, u) && u in d && forall v :: v in d ==> v in all
    ensures At(Final(d), k) == Some(Item(u.value, u.ts))
  {
    var n := |d| - 1;
    var before, last := d[..n], d[n];
    assert last in d;
    if u in before {
      NewestStands(before, all, k, u);
    } else {
      assert last == u;
      StoredWasDelivered(before, k);
      if k in Final(before) {
        var v :| v in before && For(v, k) && v.value == Final(before)[k].value != "" && v.ts == Final(before)[k].ts;
        assert v in d;
      }
    }
  }

  ghost predicate Sets(all: set<Update>, k: string) {
    exists u :: u in all && For(u, k) && u.value != ""
  }

  // The newest settings of a key carry one value and no deletion is newer, or
  // nothing sets it at all.
  ghost predicate Settled(all: set<Update>, k: string) {
    !Sets(all, k) || exists u :: LastWord(all, k, u)
  }

  ghost predicate Converges(all: set<Update>, k: string) {
    forall d, e :: Delivers(d, all) && Delivers(e, all) ==> At(Final(d), k) == At(Final(e), k)
  }

  lemma {:induction false} Enumerate(all: set<Update>) returns (d: seq<Update>)
    ensures Delivers(d, all)
  {
    if all == {} {
      d := [];
    } else {
      var u :| u in all;
      d := Enumerate(all - {u});
      d := d + [u];
    }
  }

  lemma {:induction false} NewestExists(all: set<Update>, k: string, u: Update) returns (m: Update)
    requires u in all && For(u, k)
    ensures Newest(all, k, m)
    decreases |all|
  {
    var rest := all - {u};
    if v :| v in rest && For(v, k) {
      m := NewestExists(rest, k, v);
      if m.ts < u.ts {
        m := u;
      }
      assert forall w :: w in all <==> w in rest || w == u;
    } else {
      m := u;
    }
  }

  lemma SettledConverges(all: set<Update>, k: string, d: seq<Update>, e: seq<Update>)
    requires Settled(all, k) && Delivers(d, all) && Delivers(e, all)
    ensures At(Final(d), k) == At(Final(e), k)
    ensures forall u :: LastWord(all, k, u) ==> At(Final(d), k) == Some(Item(u.value, u.ts))
  {
    if Sets(all, k) {
      var u :| LastWord(all, k, u);
      NewestStands(d, all, k, u);
      NewestStands(e, all, k, u);
    } else {
      StoredWasDelivered(d, k);
      StoredWasDelivered(e, k);
    }
  }

  // A deletion that is the last word is forgotten with the key: any setting
  // delivered after it brings the key back.
  lemma DeletionDiverges(all: set<Update>, k: string, del: Update, u: Update, d: seq<Update>)
    requires Newest(all, k, del) && del.value == "" && u in all && For(u, k) && u.value != ""
    requires (forall v :: v in all && For(v, k) && v.value != "" ==> v.ts < del.ts) && Delivers(d, all)
    ensures Delivers(d + [del], all) && Delivers(d + [del] + [u], all)
    ensures At(Final(d + [del]), k) == None
    ensures At(Final(d + [del] + [u]), k) == Some(Item(u.value, u.ts))
  {
    FinalNext(d, del);
    FinalNext(d + [del], u);
    StoredWasDelivered(d, k);
    if k in Final(d) {
      var v :| v in d && For(v, k) && v.value == Final(d)[k].value != "" && v.ts == Final(d)[k].ts;
      assert v in all;
    }
  }

  // Of two settings with the newest timestamp the one delivered first stands.
  lemma {:induction false} FirstStands(all: set<Update>, k: string, u: Update, d: seq<Update>)
    requires Newest(all, k, u) && u.value != "" && forall v :: v in d ==> v in all
    ensures At(Final([u] + d), k) == Some(Item(u.value, u.ts))
    decreases |d|
  {
    if d == [] {
      FinalNext([], u);
      assert [] + [u] == [u] && [u] + d == [u];
    } else {
      var n := |d| - 1;
      FirstStands(all, k, u, d[..n]);
      FinalNext([u] + d[..n], d[n]);
      assert [u] + d[..n] + [d[n]] == [u] + d;
      assert d[n] in d;
    }
  }

  // Two servers that hear two settings with one timestamp in different orders.
  lemma TieStays() returns (d: seq<Update>, e: seq<Update>)
    ensures var u, w := Update("k", "v", 1), Update("k", "w", 1); d == [u] + [w] && e == [w] + [u]
    ensures At(Final(d), "k") == Some(Item("v", 1)) && At(Final(e), "k") == Some(Item("w", 1))
  {
    var u, w := Update("k", "v", 1), Update("k", "w", 1);
    assert Fold("k") == "k";
    FirstStands({u, w}, "k", u, [w]);
    FirstStands({u, w}, "k", w, [u]);
    d, e := [u] + [w], [w] + [u];
  }

  lemma SetInEmpty(d: seq<Update>, u: Update)
    requires Final(d) == map[] && u.value != ""
    ensures Final(d + [u]) == map[Fold(u.key) := Item(u.value, u.ts)]
  {
    FinalNext(d, u);
  }

  // Set, and deleted.
  lemma SetAndDeleted(d: seq<Update>, u: Update, del: Update)
    requires Final(d) == map[] && For(del, Fold(u.key)) && u.value != "" && del.value == "" && u.ts < del.ts
    ensures Final(d + [u] + [del]) == map[]
  {
    SetInEmpty(d, u);
    FinalNext(d + [u], del);
  }

  lemma SetDeletedAndSet(u: Update, del: Update) returns (d: seq<Update>, e: seq<Update>)
    requires For(del, Fold(u.key)) && u.value != "" && del.value == "" && u.ts < del.ts
    ensures d == [u, del] && e == [u, del, u]
    ensures Final(d) == map[] && Final(e) == map[Fold(u.key) := Item(u.value, u.ts)]
  {
    SetAndDeleted([], u, del);
    d := [] + [u] + [del];
    SetInEmpty(d, u);
    e := d + [u];
  }

  // And the setting delivered once more.
  lemma DeletedComesBack() returns (d: seq<Update>, e: seq<Update>)
    ensures var u, del := Update("k", "v", 1), Update("k", "", 2); d == [u, del] && e == [u, del, u]
    ensures Final(d) == map[] && Final(e) == map["k" := Item("v", 1)]
  {
    d, e := SetDeletedAndSet(Update("k", "v", 1), Update("k", "", 2));
    assert Fold("k") == "k";
  }

  lemma UnsettledDiverges(all: set<Update>, k: string) returns (d: seq<Update>, e: seq<Update>)
    requires !Settled(all, k)
    ensures Delivers(d, all) && Delivers(e, all) && At(Final(d), k) != At(Final(e), k)
  {
    var u :| u in all && For(u, k) && u.value != "";
    var m := NewestExists(all, k, u);
    d := Enumerate(all);
    if v :| v in all && For(v, k) && v.value != "" && v.ts == m.ts {
      assert Newest(all, k, v) && !LastWord(all, k, v);
      var w :| w in all && For(w, k) && w.value != "" && w.ts == v.ts && w.value != v.value;
      FirstStands(all, k, v, d);
      FirstStands(all, k, w, d);
      d, e := [v] + d, [w] + d;
    } else {
      DeletionDiverges(all, k, m, u, d);
      d, e := d + [m], d + [m] + [u];
    }
  }

  // Whatever the order and the repetitions, every server ends with the same
  // setting for a key - the newest - exactly when nothing ever sets it, or the
  // newest settings of it carry one value and no deletion is newer than they.
  lemma ConvergesIff(all: set<Update>, k: string)
    ensures Converges(all, k) <==> Settled(all, k)
  {
    if Settled(all, k) {
      forall d, e | Delivers(d, all) && Delivers(e, all) ensures At(Final(d), k) == At(Final(e), k) {
        SettledConverges(all, k, d, e);
      }
    } else {
      var d, e := UnsettledDiverges(all, k);
    }
  }

  // ----- Callbacks ----------------------------------------------------------

  function ValueAt(s: Store, k: string): Option<string> {
    if k in s then Some(s[k].value) else None
  }

  // The callbacks of one update: one when it is accepted, none when it is not.
  function CallsOf(s: Store, u: Update): seq<Call> {
    if CodeOf(s, u) == Rejected then [] else [Call(u.key, ValueAt(s, Fold(u.key)), ValueAt(Apply(s, u), Fold(u.key)))]
  }

  function Trace(d: seq<Update>): seq<Call> {
    if d == [] then [] else Trace(d[..|d| - 1]) + CallsOf(Final(d[..|d| - 1]), d[|d| - 1])
  }

  // Playing the callbacks for a key back, each from where the last one left it.
  function Replay(cs: seq<Call>, k: string): Option<Option<string>> {
    if cs == [] then
      Some(None)
    else
      var c := cs[|cs| - 1];
      var before := Replay(cs[..|cs| - 1], k);
      if Fold(c.key) != k then before
      else if before == Some(c.was) then Some(c.now)
      else None
  }

  lemma ReplayNext(cs: seq<Call>, c: Call, k: string)
    ensures Replay(cs + [c], k)
         == if Fold(c.key) != k then Replay(cs, k) else if Replay(cs, k) == Some(c.was) then Some(c.now) else None
  {
    assert (cs + [c])[..|cs|] == cs;
  }

  lemma StepTells(cs: seq<Call>, s: Store, u: Update, k: string)
    requires Replay(cs, k) == Some(ValueAt(s, k))
    ensures Replay(cs + CallsOf(s, u), k) == Some(ValueAt(Apply(s, u), k))
  {
    if CodeOf(s, u) == Rejected {
      assert cs + [] == cs;
    } else {
      ReplayNext(cs, CallsOf(s, u)[0], k);
    }
  }

  // The callbacks tell the whole story of a key: each starts from the value the
  // one before it left, and the last leaves what is stored.
  lemma {:induction false} CallbacksTellAll(d: seq<Update>, k: string)
    ensures Replay(Trace(d), k) == Some(ValueAt(Final(d), k))
  {
    if d != [] {
      var n := |d| - 1;
      CallbacksTellAll(d[..n], k);
      StepTells(Trace(d[..n]), Final(d[..n]), d[n], k);
    }
  }

  // A callback whose old and new values are the same is made exactly for an
  // accepted update that repeats the value; it is then reported as a change of
  // timestamp only - and so is one that differs in case.
  lemma IdleCallbackIff(s: Store, u: Update)
    ensures CodeOf(s, u) == Timestamp <==>
              CallsOf(s, u) != [] && CallsOf(s, u)[0].was.Some? && CallsOf(s, u)[0].now.Some?
              && Fold(CallsOf(s, u)[0].was.value) == Fold(CallsOf(s, u)[0].now.value)
    ensures CallsOf(s, u) != [] && CallsOf(s, u)[0].was == CallsOf(s, u)[0].now ==> CodeOf(s, u) == Timestamp
    ensures CodeOf(s, u) == Rejected <==> CallsOf(s, u) == []
    ensures CodeOf(s, u) == Rejected ==> Apply(s, u) == s
  {
  }

  // The same value again, newer: nothing changes, and everybody is called.
  lemma SameValueCalls()
    ensures var s, u := map["k" := Item("v", 1)], Update("k", "v", 2);
            CodeOf(s, u) == Timestamp && CallsOf(s, u) == [Call("k", Some("v"), Some("v"))]
  {
    assert Fold("k") == "k" && Fold("v") == "v";
  }

  // ----- Bursts between two servers -----------------------------------------

  // A burst: every entry, once, in some order.
  ghost predicate Bursts(d: seq<Update>, s: Store) {
    && (forall u :: u in d ==> Fold(u.key) in s && s[Fold(u.key)] == Item(u.value, u.ts))
    && (forall k :: k in s ==> Mentions(d, k))
  }

  ghost predicate Mentions(d: seq<Update>, k: string) {
    exists u :: u in d && For(u, k)
  }

  function Receive(s: Store, d: seq<Update>): Store {
    if d == [] then s else Apply(Receive(s, d[..|d| - 1]), d[|d| - 1])
  }

  // The newer of two; the first when they are equally old.
  function Newer(a: Option<Item>, b: Option<Item>): Option<Item> {
    if a.None? then b
    else if b.None? || b.value.ts <= a.value.ts then a
    else b
  }

  ghost predicate NoEmpty(s: Store) {
    forall k :: k in s ==> s[k].value != ""
  }

  lemma {:induction false} ReceivedPrefix(a: Store, b: Store, d: seq<Update>, k: string)
    requires NoEmpty(b) && forall u :: u in d ==> Fold(u.key) in b && b[Fold(u.key)] == Item(u.value, u.ts)
    ensures At(Receive(a, d), k) == if Mentions(d, k) then Newer(At(a, k), At(b, k)) else At(a, k)
  {
    if d != [] {
      var n := |d| - 1;
      ReceivedPrefix(a, b, d[..n], k);
      assert d[n] in d;
      assert Mentions(d, k) <==> Mentions(d[..n], k) || For(d[n], k) by {
        assert forall u :: u in d <==> u in d[..n] || u == d[n];
      }
    }
  }

  lemma SameIff(x: Store, y: Store)
    ensures x == y <==> forall k :: At(x, k) == At(y, k)
  {
    if forall k :: At(x, k) == At(y, k) {
      forall k ensures (k in x <==> k in y) && (k in x ==> x[k] == y[k]) {
        assert At(x, k) == At(y, k);
      }
    }
  }

  // Equally old and not the same.
  predicate Clash(a: Option<Item>, b: Option<Item>) {
    a.Some? && b.Some? && a.value.ts == b.value.ts && a != b
  }

  lemma NewerIff(a: Option<Item>, b: Option<Item>)
    ensures Newer(a, b) == Newer(b, a) <==> !Clash(a, b)
  {
  }

  lemma Received(a: Store, b: Store, d: seq<Update>, k: string)
    requires NoEmpty(b) && Bursts(d, b)
    ensures At(Receive(a, d), k) == Newer(At(a, k), At(b, k))
  {
    ReceivedPrefix(a, b, d, k);
  }

  // After each has sent the other all it had, two servers agree on everything
  // exactly when they did not hold different values with the same timestamp.
  lemma BurstsAgreeIff(a: Store, b: Store, da: seq<Update>, db: seq<Update>)
    requires NoEmpty(a) && NoEmpty(b) && Bursts(da, a) && Bursts(db, b)
    ensures Receive(a, db) == Receive(b, da) <==> forall k :: !Clash(At(a, k), At(b, k))
  {
    var x, y := Receive(a, db), Receive(b, da);
    SameIff(x, y);
    forall k ensures At(x, k) == At(y, k) <==> !Clash(At(a, k), At(b, k)) {
      Received(a, b, db, k);
      Received(b, a, da, k);
      NewerIff(At(a, k), At(b, k));
    }
  }

  // ----- The list -----------------------------------------------------------

  datatype Entry = Entry(key: string, value: string, ts: int)

  ghost predicate Keyed(es: seq<Entry>) {
    forall i, j :: 0 <= i < j < |es| ==> Fold(es[i].key) != Fold(es[j].key)
  }

  ghost predicate Represents(es: seq<Entry>, s: Store) {
    && Keyed(es)
    && (forall e :: e in es ==> Fold(e.key) in s && s[Fold(e.key)] == Item(e.value, e.ts))
    && (forall k :: k in s ==> exists e :: e in es && Fold(e.key) == k)
  }

  class Config {
    var entries: seq<Entry>
    var calls: seq<Call>
    ghost var store: Store

    ghost predicate Valid()
      reads this
    {
      Represents(entries, store)
    }

    constructor ()
      ensures Valid() && store == map[] && calls == []
    {
      entries, calls, store := [], [], map[];
    }

    method Find(key: string) returns (i: nat)
      requires Valid()
      ensures i <= |entries|
      ensures i == |entries| <==> Fold(key) !in store
      ensures i < |entries| ==> Fold(entries[i].key) == Fold(key)
    {
      i := 0;
      while i < |entries|
        invariant i <= |entries|
        invariant forall j :: 0 <= j < i ==> Fold(entries[j].key) != Fold(key)
      {
        var same := Same(entries[i].key, key);
        if same {
          assert entries[i] in entries;
          return;
        }
        i := i + 1;
      }
    }

    method Set(key: string, value: string, ts: int) returns (code: Code)
      requires Valid()
      modifies this
      ensures Valid() && store == Apply(old(store), Update(key, value, ts))
      ensures code == CodeOf(old(store), Update(key, value, ts))
      ensures calls == old(calls) + CallsOf(old(store), Update(key, value, ts))
    {
      ghost var u := Update(key, value, ts);
      var i := Find(key);
      var found := i < |entries|;
      if found {
        assert entries[i] in entries;
      }
      if value == "" {
        if found && ts > entries[i].ts {
          var was := entries[i].value;
          Dropped(entries, store, i);
          entries := entries[..i] + entries[i + 1..];
          store := Apply(store, u);
          calls := calls + [Call(key, Some(was), None)];
          return Deleted;
        }
        return Rejected;
      }
      if found {
        if ts <= entries[i].ts {
          return Rejected;
        }
        var was := entries[i].value;
        var same := Same(was, value);
        Replaced(entries, store, i, value, ts);
        entries := entries[i := entries[i].(value := value, ts := ts)];
        store := Apply(store, u);
        calls := calls + [Call(key, Some(was), Some(value))];
        return if same then Timestamp else Changed;
      }
      Extended(entries, store, Entry(key, value, ts));
      entries := [Entry(key, value, ts)] + entries;
      store := Apply(store, u);
      calls := calls + [Call(key, None, Some(value))];
      return Created;
    }
  }

  lemma DroppedIn(es: seq<Entry>, i: nat)
    requires Keyed(es) && i < |es|
    ensures Keyed(es[..i] + es[i + 1..])
    ensures forall e :: e in es[..i] + es[i + 1..] <==> e in es && Fold(e.key) != Fold(es[i].key)
  {
    var fs := es[..i] + es[i + 1..];
    assert forall j :: 0 <= j < |fs| ==> fs[j] == es[if j < i then j else j + 1];
    forall e | e in es && Fold(e.key) != Fold(es[i].key) ensures e in fs {
      var j :| 0 <= j < |es| && es[j] == e;
      assert fs[if j < i then j else j - 1] == e;
    }
  }

  lemma Dropped(es: seq<Entry>, s: Store, i: nat)
    requires Represents(es, s) && i < |es|
    ensures Represents(es[..i] + es[i + 1..], s - {Fold(es[i].key)})
  {
    DroppedIn(es, i);
    var k, fs := Fold(es[i].key), es[..i] + es[i + 1..];
    forall l | l in s - {k} ensures exists e :: e in fs && Fold(e.key) == l {
      var e :| e in es && Fold(e.key) == l;
      assert e in fs;
    }
  }

  lemma Replaced(es: seq<Entry>, s: Store, i: nat, value: string, ts: int)
    requires Represents(es, s) && i < |es|
    ensures Represents(es[i := es[i].(value := value, ts := ts)], s[Fold(es[i].key) := Item(value, ts)])
  {
    var k, fs, t := Fold(es[i].key), es[i := es[i].(value := value, ts := ts)], s[Fold(es[i].key) := Item(value, ts)];
    forall e | e in fs ensures Fold(e.key) in t && t[Fold(e.key)] == Item(e.value, e.ts) {
      var j :| 0 <= j < |fs| && fs[j] == e;
      assert j != i ==> es[j] in es;
    }
    forall l | l in t ensures exists e :: e in fs && Fold(e.key) == l {
      if l == k {
        assert fs[i] in fs;
      } else {
        var e :| e in es && Fold(e.key) == l;
        var j :| 0 <= j < |es| && es[j] == e;
        assert fs[j] == e;
      }
    }
  }

  lemma KeyedMore(es: seq<Entry>, e: Entry)
    requires Keyed(es) && forall f :: f in es ==> Fold(f.key) != Fold(e.key)
    ensures Keyed([e] + es)
  {
    var fs := [e] + es;
    assert forall j :: 0 < j < |fs| ==> fs[j] == es[j - 1] && fs[j] in es;
  }

  lemma Extended(es: seq<Entry>, s: Store, e: Entry)
    requires Represents(es, s) && Fold(e.key) !in s
    ensures Represents([e] + es, s[Fold(e.key) := Item(e.value, e.ts)])
  {
    KeyedMore(es, e);
    var fs := [e] + es;
    assert forall f :: f in fs <==> f == e || f in es;
    forall l | l in s ensures exists f :: f in fs && Fold(f.key) == l {
      var f :| f in es && Fold(f.key) == l;
      assert f in fs;
    }
  }
}
