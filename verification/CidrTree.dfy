/** The prefix tree of ircd/cidr_lookups.c as cells in memory.  A pointer is a
    number, 0 is NULL, and a freed cell is one that is no longer in `Mem`, so
    following a pointer to it is not even well formed. */
module CidrTree {
  /** 128 bits, the most significant one first. */
  type Addr = a: seq<bool> | |a| == 128 witness seq(128, _ => false)

  datatype Node = Node(ip: Addr, bits: nat, parent: nat, l: nat, r: nat, data: nat)

  type Mem = map<nat, Node>

  /** Every bit of ip from lo up to hi is b. */
  predicate Uniform(ip: Addr, lo: nat, hi: nat, b: bool)
    requires hi <= 128
    decreases hi, |ip|
  {
    hi <= lo || (ip[hi - 1] == b && Uniform(ip, lo, hi - 1, b))
  }

  /** irc_in_addr_is_ipv4: ::ffff:a.b.c.d, or ::a.b.c.d with a.b not zero. */
  predicate V4(ip: Addr) {
    && Uniform(ip, 0, 80, false)
    && (Uniform(ip, 80, 96, true) || (Uniform(ip, 80, 96, false) && !Uniform(ip, 96, 112, false)))
  }

  /** ::ffff:0:0, the root of the IPv4 family. */
  predicate Base4(ip: Addr) { Uniform(ip, 0, 80, false) && Uniform(ip, 80, 96, true) && Uniform(ip, 96, 128, false) }

  lemma {:induction false} UniformIs(ip: Addr, lo: nat, hi: nat, b: bool)
    requires hi <= 128
    ensures Uniform(ip, lo, hi, b) <==> forall k :: lo <= k < hi ==> ip[k] == b
  {
    if lo < hi { UniformIs(ip, lo, hi - 1, b); }
  }

  /** a and b have their first n bits in common. */
  predicate Agree(a: Addr, b: Addr, n: nat)
    requires n <= 128
  {
    n == 0 || (a[n - 1] == b[n - 1] && Agree(a, b, n - 1))
  }

  lemma {:induction false} AgreeAt(a: Addr, b: Addr, n: nat)
    requires n <= 128
    ensures Agree(a, b, n) <==> forall k :: 0 <= k < n ==> a[k] == b[k]
    ensures Agree(a, b, n) <==> a[..n] == b[..n]
  {
    if n > 0 {
      AgreeAt(a, b, n - 1);
      assert a[..n] == a[..n - 1] + [a[n - 1]] && b[..n] == b[..n - 1] + [b[n - 1]];
    }
  }

  lemma AgreeLess(a: Addr, b: Addr, m: nat, n: nat)
    requires m <= n <= 128 && Agree(a, b, n)
    ensures Agree(a, b, m) && Agree(b, a, m)
  {
    AgreeAt(a, b, m);
    AgreeAt(b, a, m);
    AgreeAt(a, b, n);
  }

  lemma AgreeBit(a: Addr, b: Addr, m: nat, n: nat)
    requires m < n <= 128 && Agree(a, b, n)
    ensures a[m] == b[m]
  {
    AgreeAt(a, b, n);
  }

  lemma AgreeBoth(a: Addr, b: Addr, c: Addr, n: nat)
    requires n <= 128 && Agree(a, b, n) && Agree(b, c, n)
    ensures Agree(a, c, n)
  {
    AgreeAt(a, b, n);
    AgreeAt(b, c, n);
    AgreeAt(a, c, n);
  }

  function Min(a: nat, b: nat): nat { if a < b then a else b }

  /** The first of the bits below `hi` in which a and b differ, or `hi`. */
  function Diff(a: Addr, b: Addr, hi: nat): (i: nat)
    requires hi <= 128
    ensures i <= hi && Agree(a, b, i) && (i < hi ==> a[i] != b[i])
  {
    if hi == 0 then 0
    else
      var i := Diff(a, b, hi - 1);
      if i < hi - 1 || a[hi - 1] != b[hi - 1] then i else hi
  }

  lemma DiffOnly(a: Addr, b: Addr, hi: nat, i: nat)
    requires i <= hi <= 128 && Agree(a, b, i) && (i < hi ==> a[i] != b[i])
    ensures Diff(a, b, hi) == i
  {
    AgreeAt(a, b, i);
    AgreeAt(a, b, Diff(a, b, hi));
  }

  /** The first of the bits from lo up to `hi` in which a and b differ, or `hi`. */
  function DiffFrom(a: Addr, b: Addr, lo: nat, hi: nat): (i: nat)
    requires lo <= hi <= 128
    ensures lo <= i <= hi && (i < hi ==> a[i] != b[i]) && forall k :: lo <= k < i ==> a[k] == b[k]
    decreases hi - lo
  {
    if lo == hi || a[lo] != b[lo] then lo else DiffFrom(a, b, lo + 1, hi)
  }

  lemma DiffFromOnly(a: Addr, b: Addr, lo: nat, hi: nat, i: nat)
    requires lo <= i <= hi <= 128 && (i < hi ==> a[i] != b[i]) && forall k :: lo <= k < i ==> a[k] == b[k]
    ensures DiffFrom(a, b, lo, hi) == i
  {
  }

  /** _cidr_bit_diff compares from the start of the word that holds bit lo.
      When that word lies past `hi`, it is the one whose leading bits count. */
  function BitDiff(a: Addr, b: Addr, lo: nat, hi: nat): nat
    requires lo < 128 && hi <= 128
  {
    var start := lo - lo % 16;
    if start <= hi then DiffFrom(a, b, start, hi)
    else
      var i := DiffFrom(a, b, start, start + hi % 16);
      if i < start + hi % 16 then i else hi
  }

  /** What came before lo and was settled by then need not be looked at: for
      the answer about q, comparing with any ip that has q's later words does. */
  lemma BitDiffIs(a: Addr, ip: Addr, q: Addr, lo: nat, hi: nat)
    requires lo < 128 && lo <= hi <= 128 && Agree(a, q, lo)
    requires forall k :: lo - lo % 16 <= k < 128 ==> ip[k] == q[k]
    ensures BitDiff(a, ip, lo, hi) == Diff(a, q, hi)
  {
    var i := BitDiff(a, ip, lo, hi);
    AgreeAt(a, q, lo);
    AgreeAt(a, q, i);
    DiffOnly(a, q, hi, i);
  }

  // ----- the shape -----

  /** c's prefix lies inside n's, on the side of bit `right`. */
  predicate Under(n: Node, c: Node, right: bool) {
    && n.bits < c.bits <= 128 && Agree(c.ip, n.ip, n.bits) && c.ip[n.bits] == right && V4(c.ip) == V4(n.ip)
  }

  /** c hangs below n on the side of bit `right`. */
  predicate Below(mem: Mem, n: nat, c: nat, right: bool)
    requires n in mem
  {
    c in mem && mem[c].parent == n && Under(mem[n], mem[c], right)
  }

  predicate NodeOk(mem: Mem, root4: nat, root6: nat, n: nat)
    requires n in mem
  {
    && mem[n].bits <= 128
    && (mem[n].l != 0 ==> Below(mem, n, mem[n].l, false))
    && (mem[n].r != 0 ==> Below(mem, n, mem[n].r, true))
    && (if n == root4 || n == root6 then mem[n].parent == 0
        else mem[n].parent in mem && (mem[mem[n].parent].l == n || mem[mem[n].parent].r == n))
  }

  /** The two family roots stay where cidr_new_tree put them. */
  ghost predicate Ok(mem: Mem, root4: nat, root6: nat) {
    && 0 !in mem && root4 in mem && root6 in mem
    && Base4(mem[root4].ip) && !V4(mem[root6].ip)
    && mem[root4].bits == 96 && mem[root6].bits == 0
    && (forall n {:trigger NodeOk(mem, root4, root6, n)} :: n in mem ==> NodeOk(mem, root4, root6, n))
  }

  /** Every node that holds nothing, apart from the roots and `but`, has two children. */
  ghost predicate Compact(mem: Mem, root4: nat, root6: nat, but: nat) {
    forall n :: n in mem && n != root4 && n != root6 && n != but && mem[n].data == 0 ==> mem[n].l != 0 && mem[n].r != 0
  }

  function RootOf(root4: nat, root6: nat, ip: Addr): nat { if V4(ip) then root4 else root6 }

  /** n's prefix covers the mask ip/bits. */
  predicate Covers(n: Node, ip: Addr, bits: nat)
    requires n.bits <= 128
  {
    n.bits <= bits && Agree(n.ip, ip, n.bits)
  }

  function Child(n: Node, right: bool): nat { if right then n.r else n.l }

  /** Where the walk of _cidr_find_node and cidr_add_node towards ip/bits stops. */
  ghost function Stop(mem: Mem, root4: nat, root6: nat, n: nat, ip: Addr, bits: nat): (s: nat)
    requires Ok(mem, root4, root6) && n in mem && bits <= 128
    ensures s in mem
    decreases 128 - mem[n].bits
  {
    assert NodeOk(mem, root4, root6, n);
    if !Covers(mem[n], ip, bits) || mem[n].bits == bits then n
    else
      var c := Child(mem[n], ip[mem[n].bits]);
      if c == 0 then n else Stop(mem, root4, root6, c, ip, bits)
  }

  /** a is n or one of its ancestors. */
  ghost predicate Above(mem: Mem, root4: nat, root6: nat, a: nat, n: nat)
    requires Ok(mem, root4, root6) && n in mem
    decreases mem[n].bits
  {
    assert NodeOk(mem, root4, root6, n);
    a == n || (mem[n].parent != 0 && (assert NodeOk(mem, root4, root6, mem[n].parent);
      Above(mem, root4, root6, a, mem[n].parent)))
  }

  // ----- what hangs below a prefix shares it -----

  lemma UpOne(mem: Mem, root4: nat, root6: nat, n: nat) returns (p: nat)
    requires Ok(mem, root4, root6) && n in mem && mem[n].parent != 0
    ensures p == mem[n].parent && p in mem && n != root4 && n != root6 && p != n
    ensures mem[p].bits < mem[n].bits <= 128 && Below(mem, p, n, mem[n].ip[mem[p].bits])
    ensures Child(mem[p], mem[n].ip[mem[p].bits]) == n
  {
    p := mem[n].parent;
    assert NodeOk(mem, root4, root6, n);
    assert NodeOk(mem, root4, root6, p);
  }

  /** A node that covers the mask lies on the walk towards it. */
  lemma {:induction false} OnTheWalk(mem: Mem, root4: nat, root6: nat, x: nat, ip: Addr, bits: nat)
    requires Ok(mem, root4, root6) && x in mem && bits <= 128 && mem[x].bits <= 128
    requires Covers(mem[x], ip, bits) && V4(mem[x].ip) == V4(ip)
    ensures Stop(mem, root4, root6, RootOf(root4, root6, ip), ip, bits) == Stop(mem, root4, root6, x, ip, bits)
    decreases mem[x].bits
  {
    assert NodeOk(mem, root4, root6, x);
    if mem[x].parent != 0 {
      var p := UpOne(mem, root4, root6, x);
      AgreeLess(mem[x].ip, ip, mem[p].bits, mem[x].bits);
      AgreeLess(mem[x].ip, mem[p].ip, mem[p].bits, mem[p].bits);
      AgreeBoth(mem[p].ip, mem[x].ip, ip, mem[p].bits);
      AgreeBit(mem[x].ip, ip, mem[p].bits, mem[x].bits);
      OnTheWalk(mem, root4, root6, p, ip, bits);
    }
  }

  lemma {:induction false} StopsBelow(mem: Mem, root4: nat, root6: nat, x: nat, ip: Addr, bits: nat)
    requires Ok(mem, root4, root6) && x in mem && bits <= 128
    ensures Above(mem, root4, root6, x, Stop(mem, root4, root6, x, ip, bits))
    decreases 128 - mem[x].bits
  {
    assert NodeOk(mem, root4, root6, x);
    if Covers(mem[x], ip, bits) && mem[x].bits != bits {
      var c := Child(mem[x], ip[mem[x].bits]);
      if c != 0 {
        StopsBelow(mem, root4, root6, c, ip, bits);
        AboveStep(mem, root4, root6, x, c, Stop(mem, root4, root6, c, ip, bits));
      }
    }
  }

  lemma {:induction false} AboveStep(mem: Mem, root4: nat, root6: nat, p: nat, c: nat, n: nat)
    requires Ok(mem, root4, root6) && n in mem && c in mem && mem[c].parent == p && p != 0
    requires Above(mem, root4, root6, c, n)
    ensures Above(mem, root4, root6, p, n)
    decreases mem[n].bits
  {
    if c != n {
      var q := UpOne(mem, root4, root6, n);
      AboveStep(mem, root4, root6, p, c, q);
    } else {
      var q := UpOne(mem, root4, root6, c);
      assert Above(mem, root4, root6, p, p);
    }
  }

  // ----- the nearest node with data -----

  /** n itself if it holds data, else the nearest ancestor that does, else 0. */
  ghost function Nearest(mem: Mem, root4: nat, root6: nat, n: nat): (r: nat)
    requires Ok(mem, root4, root6) && (n == 0 || n in mem)
    ensures r == 0 || (r in mem && mem[r].data != 0)
    decreases if n == 0 then 0 else 1 + mem[n].bits
  {
    if n == 0 || mem[n].data != 0 then n
    else
      assert NodeOk(mem, root4, root6, n);
      assert mem[n].parent != 0 ==> NodeOk(mem, root4, root6, mem[n].parent);
      Nearest(mem, root4, root6, mem[n].parent)
  }

  lemma {:induction false} NearestIs(mem: Mem, root4: nat, root6: nat, n: nat, y: nat)
    requires Ok(mem, root4, root6) && n in mem
    ensures var r := Nearest(mem, root4, root6, n);
            && (r != 0 ==> Above(mem, root4, root6, r, n))
            && (y in mem && mem[y].data != 0 && Above(mem, root4, root6, y, n)
                ==> r != 0 && Above(mem, root4, root6, y, r))
    decreases mem[n].bits
  {
    if mem[n].data == 0 && mem[n].parent != 0 {
      var p := UpOne(mem, root4, root6, n);
      NearestIs(mem, root4, root6, p, y);
    }
  }

  lemma {:induction false} AboveCovers(mem: Mem, root4: nat, root6: nat, a: nat, n: nat, ip: Addr, bits: nat)
    requires Ok(mem, root4, root6) && n in mem && Above(mem, root4, root6, a, n)
    ensures a in mem && mem[a].bits <= mem[n].bits <= 128 && (mem[a].bits == mem[n].bits ==> a == n)
    ensures V4(mem[a].ip) == V4(mem[n].ip)
    ensures Covers(mem[n], ip, bits) ==> Covers(mem[a], ip, bits)
    decreases mem[n].bits
  {
    assert NodeOk(mem, root4, root6, n);
    if a != n {
      var p := UpOne(mem, root4, root6, n);
      AboveCovers(mem, root4, root6, a, p, ip, bits);
      if Covers(mem[n], ip, bits) {
        AgreeLess(mem[n].ip, ip, mem[p].bits, mem[n].bits);
        AgreeLess(mem[n].ip, mem[p].ip, mem[p].bits, mem[p].bits);
        AgreeBoth(mem[p].ip, mem[n].ip, ip, mem[p].bits);
      }
    }
  }

  /** Only the node at which the walk stops can fail to cover the mask. */
  lemma {:induction false} WalkCovers(mem: Mem, root4: nat, root6: nat, n: nat, ip: Addr, bits: nat)
    requires Ok(mem, root4, root6) && n in mem && bits <= 128
    ensures var e := Stop(mem, root4, root6, n, ip, bits);
            && mem[e].bits <= 128
            && (e != n ==>
                    mem[e].parent in mem && mem[mem[e].parent].bits <= 128 && Covers(mem[mem[e].parent], ip, bits))
            && V4(mem[e].ip) == V4(mem[n].ip)
            && (Covers(mem[e], ip, bits) && mem[e].bits < bits ==> Child(mem[e], ip[mem[e].bits]) == 0)
    decreases 128 - mem[n].bits
  {
    assert NodeOk(mem, root4, root6, n);
    if Covers(mem[n], ip, bits) && mem[n].bits != bits {
      var c := Child(mem[n], ip[mem[n].bits]);
      if c != 0 { WalkCovers(mem, root4, root6, c, ip, bits); }
    }
  }

  // ----- _cidr_find_node -----

  /** ::ffff:a.b.c.d, the form in which the server holds an IPv4 address. */
  predicate Mapped(ip: Addr) { Uniform(ip, 0, 80, false) && Uniform(ip, 80, 96, true) }

  function V4Head(): (s: seq<bool>)
    ensures |s| == 96 && forall k :: 0 <= k < 96 ==> s[k] == (80 <= k)
  {
    Repeat(false, 80) + Repeat(true, 16)
  }

  function Repeat(b: bool, n: nat): (s: seq<bool>)
    ensures |s| == n && forall k :: 0 <= k < n ==> s[k] == b
  {
    seq(n, _ => b)
  }

  /** The address a search for ip is really for.  It begins at the family's
      root and never compares what lies above it, so in the IPv4 tree the
      first 96 bits of ip are taken to be the root's. */
  function Sought(ip: Addr): Addr { if V4(ip) then V4Head() + ip[96..] else ip }

  lemma SoughtIs(ip: Addr)
    ensures var q := Sought(ip);
            V4(q) == V4(ip) && (V4(ip) ==> Mapped(q) && forall k :: 96 <= k < 128 ==> q[k] == ip[k])
    ensures Sought(ip) == ip <==> (V4(ip) ==> Mapped(ip))
  {
    var q := Sought(ip);
    if V4(ip) {
      UniformIs(q, 0, 80, false);
      UniformIs(q, 80, 96, true);
      UniformIs(ip, 0, 80, false);
      UniformIs(ip, 80, 96, true);
      if Mapped(ip) { assert forall k :: 0 <= k < 128 ==> q[k] == ip[k]; }
    }
  }

  /** The root of the family agrees with what is sought as far as it goes. */
  lemma RootAgrees(root: Addr, ip: Addr)
    requires V4(ip) && Base4(root)
    ensures Agree(root, Sought(ip), 96)
  {
    SoughtIs(ip);
    var q := Sought(ip);
    UniformIs(root, 0, 80, false);
    UniformIs(root, 80, 96, true);
    UniformIs(q, 0, 80, false);
    UniformIs(q, 80, 96, true);
    AgreeAt(root, q, 96);
  }

  /** is_exact_match: 0 is Best, 1 is Exact, 2 is Raw. */
  datatype Mode = Best | Exact | Raw

  ghost function Find(mem: Mem, root4: nat, root6: nat, ip: Addr, bits: nat, mode: Mode): (r: nat)
    requires Ok(mem, root4, root6) && bits <= 128
    ensures r == 0 || r in mem
  {
    var e := Stop(mem, root4, root6, RootOf(root4, root6, ip), ip, bits);
    assert NodeOk(mem, root4, root6, e);
    if mode.Best? then Nearest(mem, root4, root6, if Covers(mem[e], ip, bits) then e else mem[e].parent)
    else if Covers(mem[e], ip, bits) && mem[e].bits == bits && (mode.Raw? || mem[e].data != 0) then e
    else 0
  }

  /** y is a stored prefix of the mask's family that covers the mask. */
  ghost predicate Matches(mem: Mem, y: nat, ip: Addr, bits: nat) {
    y in mem && mem[y].bits <= 128 && mem[y].data != 0 && V4(mem[y].ip) == V4(ip) && Covers(mem[y], ip, bits)
  }

  /** The walk's result is the longest stored prefix of the mask's family that
      covers the mask, and 0 only when there is none. */
  lemma BestIsLongest(mem: Mem, root4: nat, root6: nat, ip: Addr, bits: nat, y: nat)
    requires Ok(mem, root4, root6) && bits <= 128
    ensures var r := Find(mem, root4, root6, ip, bits, Best);
            && (r != 0 ==> Matches(mem, r, ip, bits))
            && (Matches(mem, y, ip, bits) ==>
                    r != 0 && mem[y].bits <= mem[r].bits && (mem[y].bits == mem[r].bits ==> y == r))
            && (Matches(mem, y, ip, bits) ==> Above(mem, root4, root6, y, r))
  {
    var root := RootOf(root4, root6, ip);
    var e := Stop(mem, root4, root6, root, ip, bits);
    WalkCovers(mem, root4, root6, root, ip, bits);
    assert NodeOk(mem, root4, root6, e);
    assert NodeOk(mem, root4, root6, root);
    var from := if Covers(mem[e], ip, bits) then e else mem[e].parent;
    if from != 0 && from != e {
      var p := UpOne(mem, root4, root6, e);
    }
    if Matches(mem, y, ip, bits) {
      OnTheWalk(mem, root4, root6, y, ip, bits);
      StopsBelow(mem, root4, root6, y, ip, bits);
      assert y == e ==> from == e;
      assert Above(mem, root4, root6, y, from);
    }
    if from != 0 {
      NearestIs(mem, root4, root6, from, y);
      var r := Nearest(mem, root4, root6, from);
      if r != 0 {
        AboveCovers(mem, root4, root6, r, from, ip, bits);
        if Matches(mem, y, ip, bits) { AboveCovers(mem, root4, root6, y, r, ip, bits); }
      }
    }
  }

  /** n is the node of exactly the prefix ip/bits, in ip's family. */
  predicate IsNode(mem: Mem, n: nat, ip: Addr, bits: nat)
    requires bits <= 128
  {
    n in mem && mem[n].bits == bits && Agree(mem[n].ip, ip, bits) && V4(mem[n].ip) == V4(ip)
  }

  /** Exact look-up finds the prefix if and only if it is in the tree, and a
      prefix is in the tree at most once. */
  lemma ExactIsExact(mem: Mem, root4: nat, root6: nat, ip: Addr, bits: nat, n: nat)
    requires Ok(mem, root4, root6) && bits <= 128
    ensures IsNode(mem, n, ip, bits) <==> n != 0 && n == Find(mem, root4, root6, ip, bits, Raw)
    ensures IsNode(mem, n, ip, bits) && mem[n].data != 0 <==> n != 0 && n == Find(mem, root4, root6, ip, bits, Exact)
  {
    var root := RootOf(root4, root6, ip);
    WalkCovers(mem, root4, root6, root, ip, bits);
    if IsNode(mem, n, ip, bits) {
      OnTheWalk(mem, root4, root6, n, ip, bits);
    }
  }

  // ----- what the tree stands for -----

  /** A prefix and the family it is stored under. */
  type Mask = (bool, seq<bool>)

  function MaskOf(ip: Addr, bits: nat): Mask
    requires bits <= 128
  {
    (V4(ip), ip[..bits])
  }

  /** The data nodes are exactly the entries of `contents`. */
  ghost predicate Represents(mem: Mem, contents: map<Mask, nat>) {
    && (forall n :: n in mem && mem[n].data != 0 ==>
            mem[n].bits <= 128 && Holds(contents, MaskOf(mem[n].ip, mem[n].bits), mem[n].data))
    && (forall k :: k in contents ==> exists n :: n in mem && Stores(mem[n], k))
  }

  ghost predicate Holds(contents: map<Mask, nat>, k: Mask, data: nat) { k in contents && contents[k] == data }

  ghost predicate Stores(n: Node, k: Mask) { n.bits <= 128 && n.data != 0 && MaskOf(n.ip, n.bits) == k }

  // ----- changing cells -----

  /** c is still where it was: only its links below and its data may differ. */
  predicate Stays(mem: Mem, mem': Mem, c: nat)
    requires c in mem
  {
    c in mem' && mem'[c].ip == mem[c].ip && mem'[c].bits == mem[c].bits && mem'[c].parent == mem[c].parent
  }

  /** x hangs from some q in mem'. */
  predicate Hangs(mem': Mem, root4: nat, root6: nat, x: nat)
    requires x in mem'
  {
    if x == root4 || x == root6 then mem'[x].parent == 0
    else mem'[x].parent in mem' && (mem'[mem'[x].parent].l == x || mem'[mem'[x].parent].r == x)
  }

  /** A node whose children stay, and that hangs from something, is all right. */
  lemma Undisturbed(mem: Mem, mem': Mem, root4: nat, root6: nat, x: nat)
    requires x in mem && NodeOk(mem, root4, root6, x) && x in mem' && Hangs(mem', root4, root6, x)
    requires mem'[x].(parent := 0, data := 0) == mem[x].(parent := 0, data := 0)
    requires mem[x].l != 0 ==> Stays(mem, mem', mem[x].l)
    requires mem[x].r != 0 ==> Stays(mem, mem', mem[x].r)
    ensures NodeOk(mem', root4, root6, x)
  {
  }

  /** So is one that got a new child on one side. */
  lemma Adopts(mem: Mem, mem': Mem, root4: nat, root6: nat, p: nat, side: bool, c: nat)
    requires p in mem && NodeOk(mem, root4, root6, p) && p in mem' && Hangs(mem', root4, root6, p)
    requires mem'[p] == SetChild(mem, p, side, c)[p]
    requires c != 0 ==> c in mem' && mem'[c].parent == p && Under(mem[p], mem'[c], side)
    requires Child(mem[p], !side) != 0 ==> Stays(mem, mem', Child(mem[p], !side))
    ensures NodeOk(mem', root4, root6, p)
  {
  }

  function SetChild(mem: Mem, p: nat, right: bool, c: nat): Mem
    requires p in mem
  {
    mem[p := if right then mem[p].(r := c) else mem[p].(l := c)]
  }

  // ----- cidr_add_node, case by case -----

  /** ip/bits belongs below n, where nothing hangs yet. */
  function PutLeaf(mem: Mem, n: nat, right: bool, id: nat, ip: Addr, bits: nat, data: nat): Mem
    requires n in mem
  {
    SetChild(mem, n, right, id)[id := Node(ip, bits, n, 0, 0, data)]
  }

  ghost predicate CanPutLeaf(mem: Mem, root4: nat, root6: nat, n: nat, right: bool, id: nat, ip: Addr, bits: nat) {
    && Ok(mem, root4, root6) && n in mem && id !in mem && id != 0
    && Under(mem[n], Node(ip, bits, 0, 0, 0, 0), right) && Child(mem[n], right) == 0
  }

  lemma PutLeafFar(mem: Mem, root4: nat, root6: nat, n: nat, right: bool, id: nat, ip: Addr, bits: nat, data: nat,
      x: nat)
    requires CanPutLeaf(mem, root4, root6, n, right, id, ip, bits) && x in mem && x != n
    ensures NodeOk(PutLeaf(mem, n, right, id, ip, bits, data), root4, root6, x)
  {
    assert NodeOk(mem, root4, root6, x);
    Undisturbed(mem, PutLeaf(mem, n, right, id, ip, bits, data), root4, root6, x);
  }

  lemma PutLeafOk(mem: Mem, root4: nat, root6: nat, n: nat, right: bool, id: nat, ip: Addr, bits: nat, data: nat)
    requires CanPutLeaf(mem, root4, root6, n, right, id, ip, bits)
    ensures Ok(PutLeaf(mem, n, right, id, ip, bits, data), root4, root6)
  {
    var mem' := PutLeaf(mem, n, right, id, ip, bits, data);
    assert NodeOk(mem, root4, root6, n);
    Adopts(mem, mem', root4, root6, n, right, id);
    forall x | x in mem' ensures NodeOk(mem', root4, root6, x) {
      if x != id && x != n { PutLeafFar(mem, root4, root6, n, right, id, ip, bits, data, x); }
    }
  }

  /** ip/bits goes between n and its parent p. */
  function PutAbove(mem: Mem, p: nat, side: bool, n: nat, id: nat, ip: Addr, bits: nat, data: nat): Mem
    requires p in mem && n in mem && n != p && bits < 128
  {
    var right := mem[n].ip[bits];
    SetChild(mem, p, side, id)
      [n := mem[n].(parent := id)]
      [id := Node(ip, bits, p, if right then 0 else n, if right then n else 0, data)]
  }

  ghost predicate CanPutAbove(mem: Mem, root4: nat, root6: nat, p: nat, side: bool, n: nat, id: nat, ip: Addr,
      bits: nat) {
    && Ok(mem, root4, root6) && n in mem && p in mem && mem[n].parent == p && n != p && id !in mem && id != 0
        && bits < 128
    && Under(mem[p], Node(ip, bits, 0, 0, 0, 0), side) && Under(Node(ip, bits, 0, 0, 0, 0), mem[n], mem[n].ip[bits])
    && Child(mem[p], side) == n
  }

  lemma PutAboveParent(mem: Mem, root4: nat, root6: nat, p: nat, side: bool, n: nat, id: nat, ip: Addr, bits: nat,
      data: nat)
    requires CanPutAbove(mem, root4, root6, p, side, n, id, ip, bits)
    ensures NodeOk(PutAbove(mem, p, side, n, id, ip, bits, data), root4, root6, p)
  {
    assert NodeOk(mem, root4, root6, p);
    Adopts(mem, PutAbove(mem, p, side, n, id, ip, bits, data), root4, root6, p, side, id);
  }

  lemma PutAboveChild(mem: Mem, root4: nat, root6: nat, p: nat, side: bool, n: nat, id: nat, ip: Addr, bits: nat,
      data: nat)
    requires CanPutAbove(mem, root4, root6, p, side, n, id, ip, bits)
    ensures NodeOk(PutAbove(mem, p, side, n, id, ip, bits, data), root4, root6, n)
  {
    var q := UpOne(mem, root4, root6, n);
    assert NodeOk(mem, root4, root6, n);
    Undisturbed(mem, PutAbove(mem, p, side, n, id, ip, bits, data), root4, root6, n);
  }

  lemma PutAboveFar(mem: Mem, root4: nat, root6: nat, p: nat, side: bool, n: nat, id: nat, ip: Addr, bits: nat,
      data: nat, x: nat)
    requires CanPutAbove(mem, root4, root6, p, side, n, id, ip, bits) && x in mem && x != p && x != n
    ensures NodeOk(PutAbove(mem, p, side, n, id, ip, bits, data), root4, root6, x)
  {
    assert NodeOk(mem, root4, root6, x);
    Undisturbed(mem, PutAbove(mem, p, side, n, id, ip, bits, data), root4, root6, x);
  }

  lemma PutAboveOk(mem: Mem, root4: nat, root6: nat, p: nat, side: bool, n: nat, id: nat, ip: Addr, bits: nat,
      data: nat)
    requires CanPutAbove(mem, root4, root6, p, side, n, id, ip, bits)
    ensures Ok(PutAbove(mem, p, side, n, id, ip, bits, data), root4, root6)
  {
    var mem' := PutAbove(mem, p, side, n, id, ip, bits, data);
    PutAboveParent(mem, root4, root6, p, side, n, id, ip, bits, data);
    PutAboveChild(mem, root4, root6, p, side, n, id, ip, bits, data);
    assert NodeOk(mem', root4, root6, id);
    forall x | x in mem' ensures NodeOk(mem', root4, root6, x) {
      if x != p && x != n && x != id { PutAboveFar(mem, root4, root6, p, side, n, id, ip, bits, data, x); }
    }
  }

  /** A virtual node v at the first differing bit takes n's place, above n and
      the new node. */
  function PutFork(mem: Mem, p: nat, side: bool, n: nat, v: nat, at: nat, id: nat, ip: Addr, bits: nat, data: nat): Mem
    requires p in mem && n in mem && n != p && at < 128
  {
    var right := ip[at];
    SetChild(mem, p, side, v)
      [n := mem[n].(parent := v)]
      [v := Node(ip, at, p, if right then n else id, if right then id else n, 0)]
      [id := Node(ip, bits, v, 0, 0, data)]
  }

  ghost predicate CanPutFork(mem: Mem, root4: nat, root6: nat, p: nat, side: bool, n: nat, v: nat, at: nat, id: nat,
      ip: Addr, bits: nat) {
    && Ok(mem, root4, root6) && n in mem && p in mem && mem[n].parent == p && n != p
    && id !in mem && v !in mem && id != 0 && v != 0 && id != v && at < bits <= 128
    && Under(mem[p], Node(ip, at, 0, 0, 0, 0), side) && Under(Node(ip, at, 0, 0, 0, 0), mem[n], !ip[at])
    && Child(mem[p], side) == n
  }

  lemma PutForkParent(mem: Mem, root4: nat, root6: nat, p: nat, side: bool, n: nat, v: nat, at: nat, id: nat,
      ip: Addr, bits: nat, data: nat)
    requires CanPutFork(mem, root4, root6, p, side, n, v, at, id, ip, bits)
    ensures NodeOk(PutFork(mem, p, side, n, v, at, id, ip, bits, data), root4, root6, p)
  {
    assert NodeOk(mem, root4, root6, p);
    Adopts(mem, PutFork(mem, p, side, n, v, at, id, ip, bits, data), root4, root6, p, side, v);
  }

  lemma PutForkChild(mem: Mem, root4: nat, root6: nat, p: nat, side: bool, n: nat, v: nat, at: nat, id: nat,
      ip: Addr, bits: nat, data: nat)
    requires CanPutFork(mem, root4, root6, p, side, n, v, at, id, ip, bits)
    ensures NodeOk(PutFork(mem, p, side, n, v, at, id, ip, bits, data), root4, root6, n)
  {
    var q := UpOne(mem, root4, root6, n);
    assert NodeOk(mem, root4, root6, n);
    Undisturbed(mem, PutFork(mem, p, side, n, v, at, id, ip, bits, data), root4, root6, n);
  }

  lemma PutForkNew(mem: Mem, root4: nat, root6: nat, p: nat, side: bool, n: nat, v: nat, at: nat, id: nat, ip: Addr,
      bits: nat, data: nat)
    requires CanPutFork(mem, root4, root6, p, side, n, v, at, id, ip, bits)
    ensures var mem' := PutFork(mem, p, side, n, v, at, id, ip, bits, data);
            NodeOk(mem', root4, root6, v) && NodeOk(mem', root4, root6, id)
  {
    AgreeAt(ip, ip, at);
  }

  lemma PutForkFar(mem: Mem, root4: nat, root6: nat, p: nat, side: bool, n: nat, v: nat, at: nat, id: nat, ip: Addr,
      bits: nat, data: nat, x: nat)
    requires CanPutFork(mem, root4, root6, p, side, n, v, at, id, ip, bits) && x in mem && x != p && x != n
    ensures NodeOk(PutFork(mem, p, side, n, v, at, id, ip, bits, data), root4, root6, x)
  {
    assert NodeOk(mem, root4, root6, x);
    Undisturbed(mem, PutFork(mem, p, side, n, v, at, id, ip, bits, data), root4, root6, x);
  }

  lemma PutForkOk(mem: Mem, root4: nat, root6: nat, p: nat, side: bool, n: nat, v: nat, at: nat, id: nat, ip: Addr,
      bits: nat, data: nat)
    requires CanPutFork(mem, root4, root6, p, side, n, v, at, id, ip, bits)
    ensures Ok(PutFork(mem, p, side, n, v, at, id, ip, bits, data), root4, root6)
  {
    var mem' := PutFork(mem, p, side, n, v, at, id, ip, bits, data);
    PutForkParent(mem, root4, root6, p, side, n, v, at, id, ip, bits, data);
    PutForkChild(mem, root4, root6, p, side, n, v, at, id, ip, bits, data);
    PutForkNew(mem, root4, root6, p, side, n, v, at, id, ip, bits, data);
    forall x | x in mem' ensures NodeOk(mem', root4, root6, x) {
      if x != p && x != n && x != v && x != id {
        PutForkFar(mem, root4, root6, p, side, n, v, at, id, ip, bits, data, x);
      }
    }
  }

  // ----- _cidr_collapse_node, case by case -----

  function Side(mem: Mem, p: nat, n: nat): bool
    requires p in mem
  {
    mem[p].l != n
  }

  /** n's only child c takes its place, and n is freed. */
  function Splice(mem: Mem, n: nat, c: nat): Mem
    requires n in mem && c in mem && mem[n].parent in mem && mem[n].parent != c
  {
    var p := mem[n].parent;
    SetChild(mem, p, Side(mem, p, n), c)[c := mem[c].(parent := p)] - {n}
  }

  ghost predicate CanSplice(mem: Mem, root4: nat, root6: nat, n: nat, c: nat) {
    && Ok(mem, root4, root6) && n in mem && n != root4 && n != root6 && c != 0
    && ((mem[n].l == c && mem[n].r == 0) || (mem[n].l == 0 && mem[n].r == c))
  }

  lemma SpliceCells(mem: Mem, root4: nat, root6: nat, n: nat, c: nat)
    requires CanSplice(mem, root4, root6, n, c)
    ensures c in mem && mem[c].parent == n && mem[n].parent in mem
    ensures mem[n].parent != c && c != n && mem[n].parent != n && c != root4 && c != root6
    ensures var p := mem[n].parent; Child(mem[p], Side(mem, p, n)) == n && Under(mem[p], mem[c], Side(mem, p, n))
  {
    assert NodeOk(mem, root4, root6, n);
    var p := UpOne(mem, root4, root6, n);
    var q := UpOne(mem, root4, root6, c);
    assert NodeOk(mem, root4, root6, p);
    AgreeLess(mem[c].ip, mem[n].ip, mem[p].bits, mem[n].bits);
    AgreeBoth(mem[c].ip, mem[n].ip, mem[p].ip, mem[p].bits);
    AgreeBit(mem[c].ip, mem[n].ip, mem[p].bits, mem[n].bits);
  }

  lemma SpliceParent(mem: Mem, root4: nat, root6: nat, n: nat, c: nat)
    requires CanSplice(mem, root4, root6, n, c) && c in mem && mem[n].parent in mem && mem[n].parent != c
        && mem[n].parent != n
    ensures NodeOk(Splice(mem, n, c), root4, root6, mem[n].parent)
  {
    SpliceCells(mem, root4, root6, n, c);
    var p := mem[n].parent;
    assert NodeOk(mem, root4, root6, p);
    Adopts(mem, Splice(mem, n, c), root4, root6, p, Side(mem, p, n), c);
  }

  lemma SpliceChild(mem: Mem, root4: nat, root6: nat, n: nat, c: nat)
    requires CanSplice(mem, root4, root6, n, c) && c in mem && mem[n].parent in mem && mem[n].parent != c && c != n
    ensures NodeOk(Splice(mem, n, c), root4, root6, c)
  {
    SpliceCells(mem, root4, root6, n, c);
    assert NodeOk(mem, root4, root6, c);
    Undisturbed(mem, Splice(mem, n, c), root4, root6, c);
  }

  lemma SpliceFar(mem: Mem, root4: nat, root6: nat, n: nat, c: nat, x: nat)
    requires CanSplice(mem, root4, root6, n, c) && c in mem && mem[n].parent in mem && mem[n].parent != c
    requires x in mem && x != n && x != c && x != mem[n].parent
    ensures NodeOk(Splice(mem, n, c), root4, root6, x)
  {
    SpliceCells(mem, root4, root6, n, c);
    assert NodeOk(mem, root4, root6, x);
    Undisturbed(mem, Splice(mem, n, c), root4, root6, x);
  }

  lemma SpliceOk(mem: Mem, root4: nat, root6: nat, n: nat, c: nat)
    requires CanSplice(mem, root4, root6, n, c)
    ensures c in mem && mem[n].parent in mem && mem[n].parent != c && Ok(Splice(mem, n, c), root4, root6)
  {
    SpliceCells(mem, root4, root6, n, c);
    SpliceParent(mem, root4, root6, n, c);
    SpliceChild(mem, root4, root6, n, c);
    var mem' := Splice(mem, n, c);
    forall x | x in mem' ensures NodeOk(mem', root4, root6, x) {
      if x != mem[n].parent && x != c { SpliceFar(mem, root4, root6, n, c, x); }
    }
  }

  /** The leaf n is freed. */
  function Unlink(mem: Mem, n: nat): Mem
    requires n in mem && mem[n].parent in mem
  {
    var p := mem[n].parent;
    SetChild(mem, p, Side(mem, p, n), 0) - {n}
  }

  ghost predicate CanUnlink(mem: Mem, root4: nat, root6: nat, n: nat) {
    Ok(mem, root4, root6) && n in mem && n != root4 && n != root6 && mem[n].l == 0 && mem[n].r == 0
  }

  lemma UnlinkFar(mem: Mem, root4: nat, root6: nat, n: nat, x: nat)
    requires CanUnlink(mem, root4, root6, n) && mem[n].parent in mem && x in mem && x != n && x != mem[n].parent
    ensures NodeOk(Unlink(mem, n), root4, root6, x)
  {
    assert NodeOk(mem, root4, root6, n);
    assert NodeOk(mem, root4, root6, x);
    Undisturbed(mem, Unlink(mem, n), root4, root6, x);
  }

  lemma UnlinkOk(mem: Mem, root4: nat, root6: nat, n: nat)
    requires CanUnlink(mem, root4, root6, n)
    ensures mem[n].parent in mem && mem[n].parent != n && Ok(Unlink(mem, n), root4, root6)
  {
    assert NodeOk(mem, root4, root6, n);
    var p := UpOne(mem, root4, root6, n);
    var mem' := Unlink(mem, n);
    assert NodeOk(mem, root4, root6, p);
    Adopts(mem, mem', root4, root6, p, Side(mem, p, n), 0);
    forall x | x in mem' ensures NodeOk(mem', root4, root6, x) {
      if x != p { UnlinkFar(mem, root4, root6, n, x); }
    }
  }
}
