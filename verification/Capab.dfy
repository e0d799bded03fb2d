/**
 * The register of client capabilities: names kept in order, positions handed
 * out and taken back, and the sets every client holds of them - never with a
 * position nobody owns, so a slot used again starts unset everywhere.
 */
module Capab {
  import opened Options
  import opened IrcCase

  const CAP_MAX := 128
  const NAME_LEN := 63
  // Where the core's own list puts cap-notify.
  const CAPNOTIFY := 13

  datatype Flags = Flags(prohibit: bool, proto: bool, sticky: bool, sticky302: bool)

  // `key` is the name as it is compared.
  datatype Cap = Cap(name: string, key: string, index: nat, owner: Option<nat>, flags: Flags)

  // What a client asked for, and what is in force.
  datatype Client = Client(capab: set<nat>, active: set<nat>, v302: bool)

  datatype State = State(caps: seq<Cap>, clients: map<nat, Client>)

  datatype Item = Item(name: string, neg: bool)

  datatype Action =
    | Register(owner: Option<nat>, name: string, flags: Flags)
    | Unregister(mod: nat, name: string)
    | Drop(mod: nat)
    | Request(client: nat, items: seq<Item>, off: set<nat>)   // `off`: gated by a feature that is off
    | Ls(client: nat, v302: bool)
    | Withhold(index: nat)
    | Allow(index: nat)
    | Join(client: nat)
    | Quit(client: nat)

  // ----- Names --------------------------------------------------------------

  predicate Alnum(c: char) {
    'a' <= c <= '~' || 'A' <= c <= '^' || '0' <= c <= '9'
  }

  // Letters, digits and a few others, with at most one slash and that one
  // neither first nor last.
  function Scan(s: string, slash: bool): bool {
    if s == "" then true
    else if s[0] == '/' then |s| > 1 && !slash && Scan(s[1..], true)
    else (Alnum(s[0]) || s[0] in "-._") && Scan(s[1..], slash)
  }

  predicate ValidName(s: string) {
    0 < |s| <= NAME_LEN && s[0] != '/' && Scan(s, false)
  }

  // ----- What a name may be ---

  // At most one slash, and that one neither first nor last.
  ghost predicate SlashOk(s: string) {
    OneSlash(s) && (s != "" ==> s[0] != '/' && s[|s| - 1] != '/')
  }

  ghost predicate OneSlash(s: string) {
    forall i, j :: 0 <= i < j < |s| ==> !(s[i] == '/' && s[j] == '/')
  }

  predicate Accepted(c: char) { Alnum(c) || c in "-._" }

  // What the loop below lets through, with no loop in it.
  ghost predicate WellFormed(s: string) {
    0 < |s| <= NAME_LEN && SlashOk(s) && forall c :: c in s && c != '/' ==> Accepted(c)
  }

  lemma OneSlashStep(s: string, t: string)
    requires s != "" && t == s[1..]
    ensures OneSlash(s) <==> OneSlash(t) && (s[0] == '/' ==> '/' !in t)
    ensures '/' in s <==> s[0] == '/' || '/' in t
  {
    assert s == [s[0]] + t;
    if OneSlash(s) {
      assert forall i :: 0 <= i < |t| ==> t[i] == s[i + 1];
    }
    if OneSlash(t) && (s[0] == '/' ==> '/' !in t) {
      forall i, j | 0 <= i < j < |s| ensures !(s[i] == '/' && s[j] == '/') {
        assert s[j] == t[j - 1] && (i > 0 ==> s[i] == t[i - 1]);
      }
    }
  }

  lemma {:induction false} ScanIff(s: string, slash: bool)
    ensures Scan(s, slash) <==>
              && (forall c :: c in s && c != '/' ==> Accepted(c))
              && OneSlash(s) && (slash ==> '/' !in s) && (s != "" ==> s[|s| - 1] != '/')
  {
    if s != "" {
      var t := s[1..];
      ScanIff(t, slash || s[0] == '/');
      OneSlashStep(s, t);
      assert s == [s[0]] + t;
      assert (forall c :: c in s && c != '/' ==> Accepted(c)) <==>
             (s[0] == '/' || Accepted(s[0])) && forall c :: c in t && c != '/' ==> Accepted(c);
      if t != "" { assert s[|s| - 1] == t[|t| - 1]; }
    }
  }

  lemma ValidNameIff(s: string)
    ensures ValidName(s) <==> WellFormed(s)
  {
    ScanIff(s, false);
  }

  // What names are documented to be: letters, digits, dash, dot, underscore.
  predicate DocumentedChar(c: char) {
    'a' <= c <= 'z' || 'A' <= c <= 'Z' || '0' <= c <= '9' || c in "-._"
  }

  ghost predicate Documented(s: string) {
    0 < |s| <= NAME_LEN && SlashOk(s) && forall c :: c in s && c != '/' ==> DocumentedChar(c)
  }

  const BRACES := "{|}~[\\]^"

  // Every documented name is accepted, and an accepted name is a documented one
  // if and only if it has none of the characters IRC counts as letters besides.
  lemma DocumentedIff(s: string)
    ensures Documented(s) ==> ValidName(s)
    ensures ValidName(s) ==> (Documented(s) <==> forall c :: c in s ==> c !in BRACES)
  {
    ValidNameIff(s);
    assert forall c :: Accepted(c) && c !in BRACES ==> DocumentedChar(c);
    assert forall c :: DocumentedChar(c) || c == '/' ==> c !in BRACES;
  }

  lemma BraceAccepted()
    ensures ValidName("a{b") && !Documented("a{b")
  {
    var s := "a{b";
    ValidNameIff(s);
    assert s[1] == '{' && s[1] in s && !DocumentedChar('{');
    assert Accepted(s[0]) && Accepted(s[1]) && Accepted(s[2]);
  }

  method NameValid(name: string) returns (r: bool)
    ensures r == ValidName(name)
    ensures r <==> WellFormed(name)
  {
    ValidNameIff(name);
    if name == "" {
      return false;
    }
    if |name| > NAME_LEN {
      return false;
    }
    var p, slashes := 0, 0;
    assert name[0..] == name;
    while p < |name|
      invariant 0 <= p <= |name| && 0 <= slashes <= 1
      invariant p > 0 ==> name[0] != '/'
      invariant p == 0 ==> slashes == 0
      invariant Scan(name, false) == Scan(name[p..], slashes == 1)
    {
      assert name[p..][1..] == name[p + 1..];
      if name[p] == '/' {
        if p == 0 || p + 1 == |name| || slashes == 1 {
          return false;
        }
        slashes := slashes + 1;
      } else if !Alnum(name[p]) && name[p] != '-' && name[p] != '.' && name[p] != '_' {
        return false;
      }
      p := p + 1;
    }
    return true;
  }

  // How names are ordered, once folded.
  predicate Less(a: string, b: string) {
    b != "" && (a == "" || a[0] < b[0] || (a[0] == b[0] && Less(a[1..], b[1..])))
  }

  lemma {:induction false} LessTotal(a: string, b: string)
    ensures a == b || Less(a, b) || Less(b, a)
    ensures !(Less(a, b) && Less(b, a)) && !Less(a, a)
  {
    if a != "" && b != "" {
      LessTotal(a[1..], b[1..]);
      assert a == [a[0]] + a[1..] && b == [b[0]] + b[1..];
    }
    if a != "" {
      LessTotal(a[1..], a[1..]);
    }
  }

  lemma {:induction false} LessTransitive(a: string, b: string, c: string)
    requires Less(a, b) && Less(b, c)
    ensures Less(a, c)
  {
    if a != "" && a[0] == b[0] == c[0] {
      LessTransitive(a[1..], b[1..], c[1..]);
    }
  }

  // ----- The register -------------------------------------------------------

  function Find(caps: seq<Cap>, k: string): (i: nat)
    ensures i <= |caps|
    ensures i < |caps| ==> caps[i].key == k
    ensures forall j :: 0 <= j < i ==> caps[j].key != k
  {
    if caps == [] || caps[0].key == k then 0 else 1 + Find(caps[1..], k)
  }

  ghost function Indices(caps: seq<Cap>): set<nat> {
    set i | 0 <= i < |caps| :: caps[i].index
  }

  // The lowest position from i up that no capability holds.
  ghost function Free(caps: seq<Cap>, i: nat): Option<nat>
    decreases CAP_MAX - i
  {
    if i >= CAP_MAX then None
    else if i in Indices(caps) then Free(caps, i + 1)
    else Some(i)
  }

  // Where a name belongs: before the first that is greater.
  function Place(caps: seq<Cap>, k: string): (i: nat)
    ensures i <= |caps|
    ensures i < |caps| ==> Less(k, caps[i].key)
    ensures forall j :: 0 <= j < i ==> !Less(k, caps[j].key)
  {
    if caps == [] || Less(k, caps[0].key) then 0 else 1 + Place(caps[1..], k)
  }

  function Without(caps: seq<Cap>, i: nat): seq<Cap>
    requires i < |caps|
  {
    caps[..i] + caps[i + 1..]
  }

  function Cleared(c: Client, i: nat): Client {
    c.(capab := c.capab - {i}, active := c.active - {i})
  }

  // A capability goes away: every client loses it.
  function Del(clients: map<nat, Client>, i: nat): map<nat, Client> {
    map c | c in clients :: Cleared(clients[c], i)
  }

  function Removed(s: State, i: nat): State
    requires i < |s.caps|
  {
    State(Without(s.caps, i), Del(s.clients, s.caps[i].index))
  }

  function Dropped(s: State, k: nat, mod: nat): State
    requires k <= |s.caps|
    decreases |s.caps| - k
  {
    if k == |s.caps| then s
    else if s.caps[k].owner == Some(mod) then Dropped(Removed(s, k), k, mod)
    else Dropped(s, k + 1, mod)
  }

  // A request is taken whole or not at all.
  function Req(caps: seq<Cap>, off: set<nat>, items: seq<Item>, c: Client): Option<Client> {
    if items == [] then
      Some(c)
    else
      var i := Find(caps, Fold(items[0].name));
      if i == |caps| then
        None
      else
        var cap, neg := caps[i], items[0].neg;
        if cap.index in off || (!neg && cap.flags.prohibit) || (neg && cap.flags.sticky)
            || (neg && c.v302 && cap.flags.sticky302) then
          None
        else if neg then
          Req(caps, off, items[1..],
              c.(capab := c.capab - {cap.index},
                 active := if cap.flags.proto then c.active else c.active - {cap.index}))
        else
          Req(caps, off, items[1..],
              c.(capab := c.capab + {cap.index},
                 active := if cap.flags.proto then c.active else c.active + {cap.index}))
  }

  // The capability at a position, marked as one that may or may not be asked
  // for.
  function Marked(caps: seq<Cap>, index: nat, prohibit: bool): (r: seq<Cap>)
    ensures |r| == |caps|
    ensures forall i :: 0 <= i < |r| ==>
      r[i].name == caps[i].name && r[i].key == caps[i].key && r[i].index == caps[i].index && r[i].owner == caps[i].owner
  {
    if caps == [] then []
    else
      var cap := caps[0];
      [if cap.index == index then cap.(flags := cap.flags.(prohibit := prohibit)) else cap]
      + Marked(caps[1..], index, prohibit)
  }

  ghost function Do(s: State, a: Action): State {
    match a
    case Register(owner, name, flags) =>
      var slot := Free(s.caps, 0);
      if !ValidName(name) || Find(s.caps, Fold(name)) < |s.caps| || slot.None? then
        s
      else
        var i := Place(s.caps, Fold(name));
        s.(caps := s.caps[..i] + [Cap(name, Fold(name), slot.value, owner, flags)] + s.caps[i..])
    case Unregister(mod, name) =>
      var i := Find(s.caps, Fold(name));
      if i < |s.caps| && s.caps[i].owner == Some(mod) then Removed(s, i) else s
    case Drop(mod) => Dropped(s, 0, mod)
    case Request(client, items, off) =>
      if client !in s.clients then s
      else
        (match Req(s.caps, off, items, s.clients[client])
         case None => s
         case Some(c) => s.(clients := s.clients[client := c]))
    case Ls(client, v302) =>
      if client !in s.clients || !v302 then s
      else
        var c := s.clients[client];
        s.(clients := s.clients[client := c.(v302 := true, active := c.active + {CAPNOTIFY})])
    case Withhold(index) =>
      if index !in Indices(s.caps) then s
      else State(Marked(s.caps, index, true), Del(s.clients, index))
    case Allow(index) => s.(caps := Marked(s.caps, index, false))
    case Join(client) => s.(clients := s.clients[client := Client({}, {}, false)])
    case Quit(client) => s.(clients := s.clients - {client})
  }

  // ----- What every operation keeps -----------------------------------------

  ghost predicate Before(a: Cap, b: Cap) {
    Less(a.key, b.key)
  }

  ghost predicate Sorted(caps: seq<Cap>) {
    forall i, j :: 0 <= i < j < |caps| ==> Before(caps[i], caps[j])
  }

  ghost predicate Named(c: Cap) {
    ValidName(c.name) && c.key == Fold(c.name)
  }

  ghost predicate Slots(caps: seq<Cap>) {
    && (forall i :: 0 <= i < |caps| ==> caps[i].index < CAP_MAX)
    && (forall i, j :: 0 <= i < j < |caps| ==> caps[i].index != caps[j].index)
  }

  ghost predicate Holds(c: Client, all: set<nat>) {
    c.capab <= all && c.active <= all
  }

  ghost predicate IsCore(c: Cap) {
    c.index == CAPNOTIFY && c.owner == None
  }

  ghost predicate Core(caps: seq<Cap>) {
    exists c :: c in caps && IsCore(c)
  }

  ghost predicate Registered(caps: seq<Cap>) {
    Sorted(caps) && Slots(caps) && Core(caps) && forall c :: c in caps ==> Named(c)
  }

  ghost predicate Inv(s: State) {
    Registered(s.caps) && forall c :: c in s.clients ==> Holds(s.clients[c], Indices(s.caps))
  }

  lemma {:induction false} FreeIs(caps: seq<Cap>, i: nat)
    ensures Free(caps, i).Some? ==> i <= Free(caps, i).value < CAP_MAX && Free(caps, i).value !in Indices(caps)
    ensures Free(caps, i).Some? ==> forall j :: i <= j < Free(caps, i).value ==> j in Indices(caps)
    ensures Free(caps, i).None? ==> forall j :: i <= j < CAP_MAX ==> j in Indices(caps)
    decreases CAP_MAX - i
  {
    if i < CAP_MAX && i in Indices(caps) {
      FreeIs(caps, i + 1);
    }
  }

  // c belongs at i.
  ghost predicate Fits(caps: seq<Cap>, i: nat, c: Cap)
    requires i <= |caps|
  {
    && (forall j :: 0 <= j < i ==> Before(caps[j], c))
    && (forall j :: i <= j < |caps| ==> Before(c, caps[j]))
  }

  lemma PlaceFits(caps: seq<Cap>, i: nat, c: Cap)
    requires Sorted(caps) && Find(caps, c.key) == |caps| && i == Place(caps, c.key)
    ensures Fits(caps, i, c)
  {
    forall j | 0 <= j < i ensures Before(caps[j], c) {
      LessTotal(caps[j].key, c.key);
    }
    forall j | i <= j < |caps| ensures Before(c, caps[j]) {
      if j > i {
        assert Before(caps[i], caps[j]);
        LessTransitive(c.key, caps[i].key, caps[j].key);
      }
    }
  }

  lemma InsertSorted(caps: seq<Cap>, i: nat, c: Cap)
    requires Sorted(caps) && i <= |caps| && Fits(caps, i, c)
    ensures Sorted(caps[..i] + [c] + caps[i..])
  {
    var r := caps[..i] + [c] + caps[i..];
    forall j, k | 0 <= j < k < |r| ensures Before(r[j], r[k]) {
      assert j != i ==> r[j] == caps[if j < i then j else j - 1];
      assert k != i ==> r[k] == caps[if k < i then k else k - 1];
    }
  }

  lemma InsertMembers(caps: seq<Cap>, i: nat, c: Cap)
    requires i <= |caps|
    ensures var r := caps[..i] + [c] + caps[i..];
            && (forall k :: k in r <==> k in caps || k == c)
            && Indices(r) == Indices(caps) + {c.index}
  {
    var r := caps[..i] + [c] + caps[i..];
    assert caps == caps[..i] + caps[i..];
    assert forall j :: 0 <= j < |r| ==> r[j] == if j < i then caps[j] else if j == i then c else caps[j - 1];
    forall x | x in Indices(caps) + {c.index} ensures x in Indices(r) {
      if x == c.index {
        assert r[i].index == x;
      } else {
        var j :| 0 <= j < |caps| && caps[j].index == x;
        assert r[if j < i then j else j + 1].index == x;
      }
    }
  }

  lemma InsertSlots(caps: seq<Cap>, i: nat, c: Cap)
    requires Slots(caps) && i <= |caps| && c.index < CAP_MAX && c.index !in Indices(caps)
    ensures Slots(caps[..i] + [c] + caps[i..])
  {
    var r := caps[..i] + [c] + caps[i..];
    assert forall j :: 0 <= j < |r| ==> r[j] == if j < i then caps[j] else if j == i then c else caps[j - 1];
    assert forall j :: 0 <= j < |caps| ==> caps[j].index in Indices(caps);
  }

  lemma RemoveSorted(caps: seq<Cap>, i: nat)
    requires Sorted(caps) && Slots(caps) && i < |caps|
    ensures Sorted(Without(caps, i)) && Slots(Without(caps, i))
  {
    var r := Without(caps, i);
    assert forall j :: 0 <= j < |r| ==> r[j] == caps[if j < i then j else j + 1];
  }

  lemma RemoveMembers(caps: seq<Cap>, i: nat)
    requires Slots(caps) && i < |caps|
    ensures forall k :: k in Without(caps, i) <==> k in caps && k != caps[i]
    ensures Indices(Without(caps, i)) == Indices(caps) - {caps[i].index}
  {
    var r := Without(caps, i);
    assert forall j :: 0 <= j < |r| ==> r[j] == caps[if j < i then j else j + 1];
    forall k | k in caps && k != caps[i] ensures k in r {
      var j :| 0 <= j < |caps| && caps[j] == k;
      assert r[if j < i then j else j - 1] == k;
    }
    forall x | x in Indices(caps) && x != caps[i].index ensures x in Indices(r) {
      var j :| 0 <= j < |caps| && caps[j].index == x;
      assert r[if j < i then j else j - 1].index == x;
    }
  }

  lemma InsertRegister(caps: seq<Cap>, i: nat, c: Cap)
    requires Registered(caps) && Named(c) && c.index < CAP_MAX && c.index !in Indices(caps)
    requires Find(caps, c.key) == |caps| && i == Place(caps, c.key)
    ensures Registered(caps[..i] + [c] + caps[i..])
  {
    PlaceFits(caps, i, c);
    InsertSorted(caps, i, c);
    InsertSlots(caps, i, c);
    InsertMembers(caps, i, c);
    var k :| k in caps && IsCore(k);
    assert k in caps[..i] + [c] + caps[i..];
  }

  lemma RemoveRegister(caps: seq<Cap>, i: nat)
    requires Registered(caps) && i < |caps| && caps[i].owner.Some?
    ensures Registered(Without(caps, i))
  {
    RemoveSorted(caps, i);
    RemoveMembers(caps, i);
    var k :| k in caps && IsCore(k);
    assert k in Without(caps, i);
  }

  lemma RemovedInv(s: State, i: nat)
    requires Inv(s) && i < |s.caps| && s.caps[i].owner.Some?
    ensures Inv(Removed(s, i)) && s.caps[i].index !in Indices(Removed(s, i).caps)
  {
    RemoveRegister(s.caps, i);
    RemoveMembers(s.caps, i);
  }

  lemma {:induction false} DroppedInv(s: State, k: nat, mod: nat)
    requires Inv(s) && k <= |s.caps| && forall i :: 0 <= i < k ==> s.caps[i].owner != Some(mod)
    ensures Inv(Dropped(s, k, mod))
    ensures forall c :: c in Dropped(s, k, mod).caps ==> c.owner != Some(mod)
    decreases |s.caps| - k
  {
    if k < |s.caps| {
      if s.caps[k].owner == Some(mod) {
        RemovedInv(s, k);
        DroppedInv(Removed(s, k), k, mod);
      } else {
        DroppedInv(s, k + 1, mod);
      }
    }
  }

  lemma {:induction false} ReqHolds(caps: seq<Cap>, off: set<nat>, items: seq<Item>, c: Client)
    requires Holds(c, Indices(caps))
    ensures var r := Req(caps, off, items, c); r.Some? ==> Holds(r.value, Indices(caps))
    decreases |items|
  {
    if items != [] {
      var i := Find(caps, Fold(items[0].name));
      if i < |caps| {
        var x := caps[i].index;
        assert x in Indices(caps);
        ReqHolds(caps, off, items[1..],
          c.(capab := c.capab - {x}, active := if caps[i].flags.proto then c.active else c.active - {x}));
        ReqHolds(caps, off, items[1..],
          c.(capab := c.capab + {x}, active := if caps[i].flags.proto then c.active else c.active + {x}));
      }
    }
  }

  lemma MarkedSorted(caps: seq<Cap>, r: seq<Cap>)
    requires Sorted(caps) && Slots(caps) && |r| == |caps|
    requires forall i :: 0 <= i < |r| ==> r[i].key == caps[i].key && r[i].index == caps[i].index
    ensures Sorted(r) && Slots(r) && Indices(r) == Indices(caps)
  {
    forall i, j | 0 <= i < j < |r| ensures Before(r[i], r[j]) {
      assert Before(caps[i], caps[j]);
    }
    assert forall i :: 0 <= i < |r| ==> r[i].index in Indices(caps) && caps[i].index in Indices(r);
  }

  lemma MarkedCore(caps: seq<Cap>, r: seq<Cap>)
    requires Core(caps) && (forall c :: c in caps ==> Named(c)) && |r| == |caps|
    requires forall i :: 0 <= i < |r| ==> r[i] == caps[i].(flags := r[i].flags)
    ensures Core(r) && forall c :: c in r ==> Named(c)
  {
    var k :| k in caps && IsCore(k);
    var i :| 0 <= i < |caps| && caps[i] == k;
    assert r[i] in r && IsCore(r[i]);
    forall c | c in r ensures Named(c) {
      var j :| 0 <= j < |r| && r[j] == c;
      assert Named(caps[j]);
    }
  }

  lemma MarkedRegister(caps: seq<Cap>, index: nat, prohibit: bool)
    requires Registered(caps)
    ensures Registered(Marked(caps, index, prohibit)) && Indices(Marked(caps, index, prohibit)) == Indices(caps)
  {
    MarkedSorted(caps, Marked(caps, index, prohibit));
    MarkedCore(caps, Marked(caps, index, prohibit));
  }

  lemma RegisterInv(s: State, owner: Option<nat>, name: string, flags: Flags)
    requires Inv(s)
    ensures Inv(Do(s, Register(owner, name, flags)))
  {
    var slot := Free(s.caps, 0);
    if ValidName(name) && Find(s.caps, Fold(name)) == |s.caps| && slot.Some? {
      FreeIs(s.caps, 0);
      var c, i := Cap(name, Fold(name), slot.value, owner, flags), Place(s.caps, Fold(name));
      InsertRegister(s.caps, i, c);
      InsertMembers(s.caps, i, c);
    }
  }

  lemma RequestInv(s: State, client: nat, items: seq<Item>, off: set<nat>)
    requires Inv(s)
    ensures Inv(Do(s, Request(client, items, off)))
  {
    if client in s.clients {
      ReqHolds(s.caps, off, items, s.clients[client]);
    }
  }

  lemma LsInv(s: State, client: nat, v302: bool)
    requires Inv(s)
    ensures Inv(Do(s, Ls(client, v302)))
  {
    var k :| k in s.caps && IsCore(k);
    var i :| 0 <= i < |s.caps| && s.caps[i] == k;
    assert CAPNOTIFY in Indices(s.caps);
  }

  lemma DoInv(s: State, a: Action)
    requires Inv(s)
    ensures Inv(Do(s, a))
  {
    match a
    case Register(owner, name, flags) => RegisterInv(s, owner, name, flags);
    case Unregister(mod, name) =>
      var i := Find(s.caps, Fold(name));
      if i < |s.caps| && s.caps[i].owner == Some(mod) {
        RemovedInv(s, i);
      }
    case Drop(mod) => DroppedInv(s, 0, mod);
    case Request(client, items, off) => RequestInv(s, client, items, off);
    case Ls(client, v302) => LsInv(s, client, v302);
    case Withhold(index) => MarkedRegister(s.caps, index, true);
    case Allow(index) => MarkedRegister(s.caps, index, false);
    case Join(_) =>
    case Quit(_) =>
  }

  ghost function Run(s: State, acts: seq<Action>): State
    decreases |acts|
  {
    if acts == [] then s else Run(Do(s, acts[0]), acts[1..])
  }

  // Names in order and never twice, positions never twice and below the
  // limit, no client with a position nobody holds: over every run.
  lemma {:induction false} RunInv(s: State, acts: seq<Action>)
    requires Inv(s)
    ensures Inv(Run(s, acts))
    decreases |acts|
  {
    if acts != [] {
      DoInv(s, acts[0]);
      RunInv(Do(s, acts[0]), acts[1..]);
    }
  }

  // A module's capabilities go with it, from the register and from everyone,
  // and nobody else's do.
  lemma {:induction false} DroppedSpares(s: State, k: nat, mod: nat, cap: Cap)
    requires Inv(s) && k <= |s.caps| && cap in s.caps && cap.owner != Some(mod)
    ensures cap in Dropped(s, k, mod).caps
    ensures forall c :: c in s.clients ==> c in Dropped(s, k, mod).clients
    ensures forall c :: c in s.clients ==>
                          && (cap.index in Dropped(s, k, mod).clients[c].active <==> cap.index in s.clients[c].active)
                          && (cap.index in Dropped(s, k, mod).clients[c].capab <==> cap.index in s.clients[c].capab)
    decreases |s.caps| - k
  {
    if k < |s.caps| {
      if s.caps[k].owner == Some(mod) {
        RemovedInv(s, k);
        var i :| 0 <= i < |s.caps| && s.caps[i] == cap;
        assert s.caps[k].index != s.caps[i].index;
        RemoveMembers(s.caps, k);
        DroppedSpares(Removed(s, k), k, mod, cap);
      } else {
        DroppedSpares(s, k + 1, mod, cap);
      }
    }
  }

  // ----- Seeding ------------------------------------------------------------

  ghost function Seeded(names: seq<string>, flags: seq<Flags>): State
    requires |names| == |flags|
  {
    if names == [] then State([], map[])
    else
      var n := |names| - 1;
      Do(Seeded(names[..n], flags[..n]), Register(None, names[n], flags[n]))
  }

  ghost predicate Distinct(names: seq<string>) {
    && (forall i :: 0 <= i < |names| ==> ValidName(names[i]))
    && forall i, j :: 0 <= i < j < |names| ==> Fold(names[i]) != Fold(names[j])
  }

  ghost predicate AsListed(c: Cap, names: seq<string>) {
    c.index < |names| && c.name == names[c.index] && c.key == Fold(c.name) && c.owner == None
  }

  ghost predicate Numbered(caps: seq<Cap>, names: seq<string>) {
    && Sorted(caps) && Slots(caps)
    && (forall c :: c in caps ==> AsListed(c, names))
    && (forall i :: 0 <= i < |names| ==> i in Indices(caps))
  }

  lemma NewName(caps: seq<Cap>, names: seq<string>, name: string)
    requires Numbered(caps, names) && forall i :: 0 <= i < |names| ==> Fold(names[i]) != Fold(name)
    ensures Find(caps, Fold(name)) == |caps|
  {
    forall j | 0 <= j < |caps| ensures caps[j].key != Fold(name) {
      assert AsListed(caps[j], names);
    }
  }

  lemma NumberedNext(caps: seq<Cap>, names: seq<string>, c: Cap, i: nat)
    requires Numbered(caps, names) && i <= |caps| && Fits(caps, i, c)
    requires c.index == |names| < CAP_MAX && c.key == Fold(c.name) && c.owner == None
    requires c.index !in Indices(caps)
    ensures Numbered(caps[..i] + [c] + caps[i..], names + [c.name])
  {
    InsertSorted(caps, i, c);
    InsertSlots(caps, i, c);
    InsertMembers(caps, i, c);
    var r, all := caps[..i] + [c] + caps[i..], names + [c.name];
    forall k | k in r ensures AsListed(k, all) {
      if k != c {
        assert AsListed(k, names);
      }
    }
  }

  // Registered in order into an empty register, the core's capabilities get
  // the positions they have in its list, whatever their names.
  lemma {:induction false} CoreGetsItsPlaces(names: seq<string>, flags: seq<Flags>)
    requires Distinct(names) && |names| == |flags| <= CAP_MAX
    ensures Numbered(Seeded(names, flags).caps, names) && Seeded(names, flags).clients == map[]
  {
    if names != [] {
      var n := |names| - 1;
      var s, name := Seeded(names[..n], flags[..n]), names[n];
      CoreGetsItsPlaces(names[..n], flags[..n]);
      FreeAt(s.caps, names[..n], 0);
      NewName(s.caps, names[..n], name);
      var c, i := Cap(name, Fold(name), n, None, flags[n]), Place(s.caps, Fold(name));
      PlaceFits(s.caps, i, c);
      FreeIs(s.caps, 0);
      NumberedNext(s.caps, names[..n], c, i);
      assert names[..n] + [name] == names;
    }
  }

  lemma FreeAt(caps: seq<Cap>, names: seq<string>, from: nat)
    requires Numbered(caps, names) && |names| < CAP_MAX && from <= |names|
    ensures Free(caps, from) == Some(|names|)
  {
    FreeIs(caps, from);
    forall i | i in Indices(caps) ensures i < |names| {
      var j :| 0 <= j < |caps| && caps[j].index == i;
      assert AsListed(caps[j], names);
    }
    var n := |names|;
    assert n !in Indices(caps);
    assert forall i :: 0 <= i < n ==> i in Indices(caps);
  }

  // ----- From the start -----------------------------------------------------

  // The server starts with the core's own capabilities, cap-notify among them.
  ghost predicate Starts(s: State) {
    exists names, flags ::
      && Distinct(names) && CAPNOTIFY < |names| == |flags| <= CAP_MAX
      && s == Seeded(names, flags)
  }

  lemma StartInv(s: State)
    requires Starts(s)
    ensures Inv(s)
  {
    var names, flags :| Distinct(names) && CAPNOTIFY < |names| == |flags| <= CAP_MAX && s == Seeded(names, flags);
    CoreGetsItsPlaces(names, flags);
    assert CAPNOTIFY in Indices(s.caps);
    var i :| 0 <= i < |s.caps| && s.caps[i].index == CAPNOTIFY;
    assert AsListed(s.caps[i], names) && IsCore(s.caps[i]);
    forall c | c in s.caps ensures Named(c) {
      assert AsListed(c, names);
    }
  }

  // Names in order and never twice, positions never twice and below the limit,
  // no client with a position nobody holds: from the start of the server and
  // over every run.
  lemma AlwaysInv(s: State, acts: seq<Action>)
    requires Starts(s)
    ensures Inv(Run(s, acts))
  {
    StartInv(s);
    RunInv(s, acts);
  }

  // A position handed out - for the first time or again - is set for nobody,
  // however it was used before.
  lemma SlotStartsUnset(s: State, acts: seq<Action>, owner: Option<nat>, name: string, flags: Flags, c: nat)
    requires Starts(s)
    ensures var t := Run(s, acts);
            var u, slot := Do(t, Register(owner, name, flags)), Free(t.caps, 0);
            u != t && c in u.clients ==>
              && slot.Some? && slot.value in Indices(u.caps)
              && slot.value !in u.clients[c].capab && slot.value !in u.clients[c].active
  {
    AlwaysInv(s, acts);
    var t := Run(s, acts);
    FreeIs(t.caps, 0);
    var u := Do(t, Register(owner, name, flags));
    if u != t {
      InsertMembers(t.caps, Place(t.caps, Fold(name)), Cap(name, Fold(name), Free(t.caps, 0).value, owner, flags));
    }
  }

  // There is such a start: fourteen names of one letter.
  lemma SomeStart() returns (s: State)
    ensures Starts(s)
  {
    var names := ["a", "b", "c", "d", "e", "f", "g", "h", "i", "j", "k", "l", "m", "n"];
    var flags := seq(14, _ => Flags(false, false, false, false));
    forall i | 0 <= i < |names| ensures ValidName(names[i]) && Fold(names[i]) == names[i] {
      OneLetter(names[i]);
    }
    s := Seeded(names, flags);
    assert Distinct(names);
  }

  lemma OneLetter(s: string)
    requires |s| == 1 && 'a' <= s[0] <= 'z'
    ensures ValidName(s) && Fold(s) == s
  {
    assert s == [s[0]] && s[1..] == "";
  }
}
