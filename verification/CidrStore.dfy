/** cidr_add_node, _cidr_find_node, cidr_rem_node and the rest, on cells
    changed in place, proved against a plain map from prefixes to data. */
module CidrStore {
  import opened Options
  import opened CidrTree

  // ----- what a change of cells does to the map -----

  /** mem' holds what mem held, and whatever node `id` holds. */
  ghost predicate Extends(mem: Mem, mem': Mem, id: nat) {
    && id in mem'
    && (forall x :: x in mem ==>
          && x in mem' && mem'[x].ip == mem[x].ip && mem'[x].bits == mem[x].bits
          && (x != id ==> mem'[x].data == mem[x].data))
    && (forall x :: x in mem' && x !in mem && x != id ==> mem'[x].data == 0)
  }

  /** Storing NULL under a prefix is the same as not storing it. */
  function Put(contents: map<Mask, nat>, mask: Mask, data: nat): map<Mask, nat> {
    if data != 0 then contents[mask := data] else contents - {mask}
  }

  lemma SameMask(n: Node, ip: Addr, bits: nat)
    requires n.bits <= 128 && bits <= 128
    ensures MaskOf(n.ip, n.bits) == MaskOf(ip, bits) <==> n.bits == bits && Agree(n.ip, ip, bits) && V4(n.ip) == V4(ip)
  {
    AgreeAt(n.ip, ip, bits);
    assert |ip[..bits]| == bits && |n.ip[..n.bits]| == n.bits;
  }

  lemma ExtendsContents(mem: Mem, mem': Mem, contents: map<Mask, nat>, id: nat, ip: Addr, bits: nat, data: nat)
    requires Represents(mem, contents) && Extends(mem, mem', id) && bits <= 128
    requires mem'[id].data == data && mem'[id].bits == bits && MaskOf(mem'[id].ip, bits) == MaskOf(ip, bits)
    requires forall x :: IsNode(mem, x, ip, bits) ==> x == id
    ensures Represents(mem', Put(contents, MaskOf(ip, bits), data))
  {
    var mask := MaskOf(ip, bits);
    var contents' := Put(contents, mask, data);
    forall n | n in mem' && mem'[n].data != 0
      ensures mem'[n].bits <= 128 && Holds(contents', MaskOf(mem'[n].ip, mem'[n].bits), mem'[n].data)
    {
      if n != id {
        assert Holds(contents, MaskOf(mem[n].ip, mem[n].bits), mem[n].data);
        SameMask(mem[n], ip, bits);
        assert !IsNode(mem, n, ip, bits);
      }
    }
    forall k | k in contents' ensures exists n :: n in mem' && Stores(mem'[n], k) {
      if k == mask {
        assert Stores(mem'[id], k);
      } else {
        var n :| n in mem && Stores(mem[n], k);
        SameMask(mem[n], ip, bits);
        assert n in mem' && Stores(mem'[n], k);
      }
    }
  }

  /** Freeing cells that hold nothing leaves the map alone. */
  lemma FreesContents(mem: Mem, mem': Mem, contents: map<Mask, nat>)
    requires Represents(mem, contents)
    requires forall x ::
        x in mem' ==> x in mem && mem'[x].ip == mem[x].ip && mem'[x].bits == mem[x].bits && mem'[x].data == mem[x].data
    requires forall x :: x in mem && x !in mem' ==> mem[x].data == 0
    ensures Represents(mem', contents)
  {
    forall n | n in mem' && mem'[n].data != 0
      ensures mem'[n].bits <= 128 && Holds(contents, MaskOf(mem'[n].ip, mem'[n].bits), mem'[n].data)
    {
      assert Holds(contents, MaskOf(mem[n].ip, mem[n].bits), mem[n].data);
    }
    forall k | k in contents ensures exists n :: n in mem' && Stores(mem'[n], k) {
      var n :| n in mem && Stores(mem[n], k);
      assert n in mem' && Stores(mem'[n], k);
    }
  }

  // ----- _cidr_collapse_node -----

  function Only(n: Node): nat { if n.l != 0 then n.l else n.r }

  /** The cells after n, which holds nothing, is taken out if it can be, and its
      virtual parent with it if that is left with one child. */
  ghost function Collapse(mem: Mem, root4: nat, root6: nat, n: nat): Mem
    requires Ok(mem, root4, root6) && n in mem
  {
    if n == root4 || n == root6 || (mem[n].l != 0 && mem[n].r != 0) then mem
    else if mem[n].l != 0 || mem[n].r != 0 then
      SpliceOk(mem, root4, root6, n, Only(mem[n]));
      Splice(mem, n, Only(mem[n]))
    else
      UnlinkOk(mem, root4, root6, n);
      var p := mem[n].parent;
      var mem1 := Unlink(mem, n);
      if mem1[p].data == 0 && p != root4 && p != root6 && Only(mem1[p]) != 0 && (mem1[p].l == 0 || mem1[p].r == 0) then
        SpliceOk(mem1, root4, root6, p, Only(mem1[p]));
        Splice(mem1, p, Only(mem1[p]))
      else mem1
  }

  ghost predicate Frees(mem: Mem, mem': Mem) {
    && (forall x :: x in mem' ==>
            x in mem && mem'[x].ip == mem[x].ip && mem'[x].bits == mem[x].bits && mem'[x].data == mem[x].data)
    && (forall x :: x in mem && x !in mem' ==> mem[x].data == 0)
  }

  lemma FreesTwice(mem: Mem, mem1: Mem, mem2: Mem)
    requires Frees(mem, mem1) && Frees(mem1, mem2)
    ensures Frees(mem, mem2)
  {
    forall x | x in mem && x !in mem2 ensures mem[x].data == 0 { if x in mem1 { assert mem1[x].data == 0; } }
  }

  lemma SpliceFrees(mem: Mem, root4: nat, root6: nat, n: nat, c: nat)
    requires CanSplice(mem, root4, root6, n, c) && mem[n].data == 0
    ensures c in mem && mem[n].parent in mem && mem[n].parent != c
    ensures Frees(mem, Splice(mem, n, c)) && Splice(mem, n, c).Keys == mem.Keys - {n}
  {
    SpliceCells(mem, root4, root6, n, c);
  }

  lemma UnlinkFrees(mem: Mem, root4: nat, root6: nat, n: nat)
    requires CanUnlink(mem, root4, root6, n) && mem[n].data == 0
    ensures mem[n].parent in mem && Frees(mem, Unlink(mem, n)) && Unlink(mem, n).Keys == mem.Keys - {n}
  {
    UnlinkOk(mem, root4, root6, n);
  }

  /** What is freed is n, and perhaps its parent with it; neither held data. */
  lemma CollapseFrees(mem: Mem, root4: nat, root6: nat, n: nat)
    requires Ok(mem, root4, root6) && n in mem && mem[n].data == 0
    ensures Ok(Collapse(mem, root4, root6, n), root4, root6) && Frees(mem, Collapse(mem, root4, root6, n))
    ensures var left := Collapse(mem, root4, root6, n).Keys;
            left == mem.Keys || left == mem.Keys - {n} || left == mem.Keys - {n} - {mem[n].parent}
  {
    if n == root4 || n == root6 || (mem[n].l != 0 && mem[n].r != 0) {
    } else if mem[n].l != 0 || mem[n].r != 0 {
      SpliceOk(mem, root4, root6, n, Only(mem[n]));
      SpliceFrees(mem, root4, root6, n, Only(mem[n]));
    } else {
      UnlinkOk(mem, root4, root6, n);
      UnlinkFrees(mem, root4, root6, n);
      var p, mem1 := mem[n].parent, Unlink(mem, n);
      if mem1[p].data == 0 && p != root4 && p != root6 && Only(mem1[p]) != 0 && (mem1[p].l == 0 || mem1[p].r == 0) {
        SpliceOk(mem1, root4, root6, p, Only(mem1[p]));
        SpliceFrees(mem1, root4, root6, p, Only(mem1[p]));
        FreesTwice(mem, mem1, Splice(mem1, p, Only(mem1[p])));
      }
    }
  }

  /** Splicing out a node below which one child hangs keeps every other node's
      number of children. */
  lemma SpliceCompact(mem: Mem, root4: nat, root6: nat, n: nat, c: nat)
    requires CanSplice(mem, root4, root6, n, c) && Compact(mem, root4, root6, n)
    ensures c in mem && mem[n].parent in mem && mem[n].parent != c && Compact(Splice(mem, n, c), root4, root6, 0)
  {
    SpliceCells(mem, root4, root6, n, c);
  }

  lemma CollapseCompact(mem: Mem, root4: nat, root6: nat, n: nat)
    requires Ok(mem, root4, root6) && n in mem && mem[n].data == 0 && Compact(mem, root4, root6, n)
    ensures Compact(Collapse(mem, root4, root6, n), root4, root6, 0)
  {
    if n == root4 || n == root6 || (mem[n].l != 0 && mem[n].r != 0) {
    } else if mem[n].l != 0 || mem[n].r != 0 {
      SpliceCompact(mem, root4, root6, n, Only(mem[n]));
    } else {
      UnlinkOk(mem, root4, root6, n);
      var p, mem1 := mem[n].parent, Unlink(mem, n);
      assert NodeOk(mem, root4, root6, n);
      assert NodeOk(mem, root4, root6, p);
      assert Compact(mem1, root4, root6, p);
      if mem1[p].data == 0 && p != root4 && p != root6 {
        SpliceOk(mem1, root4, root6, p, Only(mem1[p]));
        SpliceCompact(mem1, root4, root6, p, Only(mem1[p]));
      }
    }
  }

  /** In a tidy tree a virtual node that loses a leaf is left with the other
      child, which is what the code's assertion says. */
  lemma CollapsesTo(mem: Mem, root4: nat, root6: nat, n: nat)
    requires Ok(mem, root4, root6) && n in mem && mem[n].data == 0 && Compact(mem, root4, root6, n)
    requires n != root4 && n != root6 && !(mem[n].l != 0 && mem[n].r != 0)
    ensures mem[n].l != 0 || mem[n].r != 0 ==> CanSplice(mem, root4, root6, n, Only(mem[n])) && Only(mem[n]) in mem
    ensures mem[n].parent in mem && mem[n].parent != n && mem[n].parent != Only(mem[n])
    ensures mem[n].l == 0 && mem[n].r == 0 ==>
              var p, mem1 := mem[n].parent, Unlink(mem, n);
              && (mem1[p].parent != 0 <==> p != root4 && p != root6)
              && (mem1[p].data == 0 && p != root4 && p != root6 ==>
                    CanSplice(mem1, root4, root6, p, Only(mem1[p])) && Only(mem1[p]) in mem1
                      && mem1[p].parent in mem1 && mem1[p].parent != Only(mem1[p]))
  {
    assert NodeOk(mem, root4, root6, n);
    var p := UpOne(mem, root4, root6, n);
    assert NodeOk(mem, root4, root6, p);
    if mem[n].l != 0 || mem[n].r != 0 {
      SpliceOk(mem, root4, root6, n, Only(mem[n]));
    } else {
      UnlinkOk(mem, root4, root6, n);
      var mem1 := Unlink(mem, n);
      if mem1[p].data == 0 && p != root4 && p != root6 { SpliceOk(mem1, root4, root6, p, Only(mem1[p])); }
    }
  }

  // ----- the walk -----

  /** The bit comparison of one step says whether n covers the mask. */
  lemma DiffCovers(n: Node, ip: Addr, bits: nat)
    requires n.bits <= 128 && bits <= 128
    ensures Diff(n.ip, ip, Min(n.bits, bits)) == n.bits <==> Covers(n, ip, bits)
  {
    var i := Diff(n.ip, ip, Min(n.bits, bits));
    AgreeAt(n.ip, ip, i);
    if Covers(n, ip, bits) { AgreeAt(n.ip, ip, n.bits); }
  }

  /** What cidr_add_node has established about n when it gets there: it hangs
      from p on the mask's side, and p covers the mask. */
  ghost predicate Arrived(mem: Mem, root: nat, p: nat, side: bool, n: nat, ip: Addr, bits: nat)
    requires bits <= 128
  {
    && n in mem && V4(mem[n].ip) == V4(ip)
    && (n == root ||
        (&& p in mem && mem[n].parent == p && n != p && mem[p].bits < bits && Covers(mem[p], ip, bits)
         && Under(mem[p], mem[n], side) && side == ip[mem[p].bits] && Child(mem[p], side) == n))
  }

  /** One step of a walk for q, made with ip in its stead and from bit lo on:
      the comparison is the one with q from the beginning. */
  lemma StepDiff(mem: Mem, root: nat, p: nat, side: bool, n: nat, ip: Addr, q: Addr, bits: nat, lo: nat)
    requires bits <= 128 && Arrived(mem, root, p, side, n, q, bits) && mem[n].bits <= 128
    requires if n == root then lo <= Min(mem[n].bits, bits) && Agree(mem[n].ip, q, lo) else lo == mem[p].bits
    requires lo < 128 && forall k :: lo - lo % 16 <= k < 128 ==> ip[k] == q[k]
    ensures BitDiff(mem[n].ip, ip, lo, Min(mem[n].bits, bits)) == Diff(mem[n].ip, q, Min(mem[n].bits, bits))
    ensures Diff(mem[n].ip, q, Min(mem[n].bits, bits)) == mem[n].bits <==> Covers(mem[n], q, bits)
  {
    if n != root { AgreeBoth(mem[n].ip, mem[p].ip, q, lo); }
    BitDiffIs(mem[n].ip, ip, q, lo, Min(mem[n].bits, bits));
    DiffCovers(mem[n], q, bits);
  }

  /** What _cidr_find_node asserts: the comparison never ends past the mask.
      It would for an IPv4 mask shorter than the family's root, whose leading
      bits are then looked for in the first word after the root. */
  predicate Asserted(ip: Addr, bits: nat)
    requires bits <= 128
  {
    V4(ip) && bits < 96 ==> Uniform(ip, 96, 96 + bits % 16, false)
  }

  /** A mask shorter than the family's root: nothing before it is compared. */
  lemma ShortDiff(root: Addr, ip: Addr, bits: nat)
    requires Base4(root) && V4(ip) && bits < 96
    ensures BitDiff(root, ip, 96, bits) <= bits <==> Asserted(ip, bits)
    ensures Asserted(ip, bits) ==> BitDiff(root, ip, 96, bits) == bits
  {
    UniformIs(root, 96, 128, false);
    UniformIs(ip, 96, 96 + bits % 16, false);
  }

  /** What a comparison at node n of a search for ip, with q sought, has to say. */
  ghost predicate Decides(n: Node, ip: Addr, q: Addr, bits: nat, i: nat)
    requires n.bits <= 128 && bits <= 128
  {
    && i <= n.bits && i <= bits
    && (i == n.bits <==> Covers(n, q, bits))
    && (i == n.bits < 128 ==> ip[i] == q[i])
  }

  /** Each comparison of the search decides what one with the address sought would. */
  lemma WalkDiff(mem: Mem, root4: nat, root6: nat, p: nat, side: bool, n: nat, ip: Addr, bits: nat, lo: nat)
    requires Ok(mem, root4, root6) && bits <= 128 && Asserted(ip, bits) && lo < 128 && (V4(ip) ==> 96 <= lo)
    requires var root := RootOf(root4, root6, ip);
             && Arrived(mem, root, p, side, n, Sought(ip), bits) && mem[n].bits <= 128
             && lo == (if n == root then mem[n].bits else mem[p].bits)
    ensures Decides(mem[n], ip, Sought(ip), bits, BitDiff(mem[n].ip, ip, lo, Min(mem[n].bits, bits)))
  {
    SoughtIs(ip);
    var q, root := Sought(ip), RootOf(root4, root6, ip);
    if V4(ip) && n == root {
      RootDiff(mem[n], ip, q, bits);
    } else {
      BelowDiff(mem, root, p, side, n, ip, q, bits, lo);
    }
  }

  lemma RootDiff(root: Node, ip: Addr, q: Addr, bits: nat)
    requires Base4(root.ip) && root.bits == 96 && V4(ip) && bits <= 128 && Asserted(ip, bits) && q == Sought(ip)
    ensures Decides(root, ip, q, bits, BitDiff(root.ip, ip, 96, Min(96, bits)))
  {
    SoughtIs(ip);
    if bits < 96 {
      ShortDiff(root.ip, ip, bits);
    } else {
      RootAgrees(root.ip, ip);
      BitDiffIs(root.ip, ip, q, 96, 96);
      DiffCovers(root, q, bits);
    }
  }

  lemma BelowDiff(mem: Mem, root: nat, p: nat, side: bool, n: nat, ip: Addr, q: Addr, bits: nat, lo: nat)
    requires bits <= 128 && Arrived(mem, root, p, side, n, q, bits) && mem[n].bits <= 128
    requires if n == root then lo == 0 == mem[n].bits else lo == mem[p].bits
    requires lo < 128 && forall k :: lo - lo % 16 <= k < 128 ==> ip[k] == q[k]
    ensures Decides(mem[n], ip, q, bits, BitDiff(mem[n].ip, ip, lo, Min(mem[n].bits, bits)))
  {
    StepDiff(mem, root, p, side, n, ip, q, bits, lo);
  }

  /** The mask's own node may be put above n, and a fork above both. */
  lemma ForkFits(p: Node, n: Node, side: bool, ip: Addr, bits: nat, i: nat)
    requires Under(p, n, side) && side == ip[p.bits] && V4(n.ip) == V4(ip)
    requires p.bits < bits <= 128 && Covers(p, ip, bits)
    requires i == Diff(n.ip, ip, Min(n.bits, bits)) && i < n.bits
    ensures p.bits < i <= bits && i < 128
    ensures Under(p, Node(ip, i, 0, 0, 0, 0), side) && Under(Node(ip, i, 0, 0, 0, 0), n, n.ip[i])
    ensures i < bits ==> n.ip[i] != ip[i]
  {
    AgreeAt(n.ip, p.ip, p.bits);
    AgreeAt(p.ip, ip, p.bits);
    AgreeAt(ip, p.ip, p.bits);
    AgreeAt(n.ip, ip, i);
    assert n.ip[p.bits] == ip[p.bits];
  }

  /** The walk stopped at something else, so the mask has no node. */
  lemma NotThere(mem: Mem, root4: nat, root6: nat, ip: Addr, bits: nat)
    requires Ok(mem, root4, root6) && bits <= 128
    requires var e := Stop(mem, root4, root6, RootOf(root4, root6, ip), ip, bits);
             mem[e].bits <= 128 && !(Covers(mem[e], ip, bits) && mem[e].bits == bits)
    ensures forall x :: !IsNode(mem, x, ip, bits)
  {
    forall x ensures !IsNode(mem, x, ip, bits) { ExactIsExact(mem, root4, root6, ip, bits, x); }
  }

  /** A new node `id` for a mask that had none, wherever it was put. */
  lemma NewNode(mem: Mem, mem': Mem, root4: nat, root6: nat, contents: map<Mask, nat>, id: nat, ip: Addr, bits: nat,
      data: nat)
    requires Represents(mem, contents) && Extends(mem, mem', id) && bits <= 128 && Ok(mem, root4, root6)
    requires mem'[id].ip == ip && mem'[id].bits == bits && mem'[id].data == data
    requires var e := Stop(mem, root4, root6, RootOf(root4, root6, ip), ip, bits);
             mem[e].bits <= 128 && !(Covers(mem[e], ip, bits) && mem[e].bits == bits)
    ensures Represents(mem', Put(contents, MaskOf(ip, bits), data)) && IsNode(mem', id, ip, bits)
  {
    NotThere(mem, root4, root6, ip, bits);
    AgreeAt(ip, ip, bits);
    ExtendsContents(mem, mem', contents, id, ip, bits, data);
  }

  lemma PutLeafExtends(mem: Mem, root4: nat, root6: nat, n: nat, right: bool, id: nat, ip: Addr, bits: nat, data: nat)
    requires CanPutLeaf(mem, root4, root6, n, right, id, ip, bits)
    ensures Extends(mem, PutLeaf(mem, n, right, id, ip, bits, data), id)
    ensures Compact(mem, root4, root6, 0)
        ==> Compact(PutLeaf(mem, n, right, id, ip, bits, data), root4, root6, if data == 0 then id else 0)
  {
  }

  lemma PutAboveExtends(mem: Mem, root4: nat, root6: nat, p: nat, side: bool, n: nat, id: nat, ip: Addr, bits: nat,
      data: nat)
    requires CanPutAbove(mem, root4, root6, p, side, n, id, ip, bits)
    ensures Extends(mem, PutAbove(mem, p, side, n, id, ip, bits, data), id)
  {
  }

  lemma PutAboveCompact(mem: Mem, root4: nat, root6: nat, p: nat, side: bool, n: nat, id: nat, ip: Addr, bits: nat,
      data: nat)
    requires CanPutAbove(mem, root4, root6, p, side, n, id, ip, bits) && Compact(mem, root4, root6, 0)
    ensures Compact(PutAbove(mem, p, side, n, id, ip, bits, data), root4, root6, if data == 0 then id else 0)
  {
  }

  lemma PutForkExtends(mem: Mem, root4: nat, root6: nat, p: nat, side: bool, n: nat, v: nat, at: nat, id: nat,
      ip: Addr, bits: nat, data: nat)
    requires CanPutFork(mem, root4, root6, p, side, n, v, at, id, ip, bits)
    ensures Extends(mem, PutFork(mem, p, side, n, v, at, id, ip, bits, data), id)
    ensures PutFork(mem, p, side, n, v, at, id, ip, bits, data).Keys == mem.Keys + {v, id}
  {
  }

  lemma PutForkCompact(mem: Mem, root4: nat, root6: nat, p: nat, side: bool, n: nat, v: nat, at: nat, id: nat,
      ip: Addr, bits: nat, data: nat)
    requires CanPutFork(mem, root4, root6, p, side, n, v, at, id, ip, bits) && Compact(mem, root4, root6, 0)
    ensures Compact(PutFork(mem, p, side, n, v, at, id, ip, bits, data), root4, root6, if data == 0 then id else 0)
  {
    var mem' := PutFork(mem, p, side, n, v, at, id, ip, bits, data);
    forall x | x in mem' && x != root4 && x != root6 && x != (if data == 0 then id else 0) && mem'[x].data == 0
      ensures mem'[x].l != 0 && mem'[x].r != 0
    {
      if x == v { assert n != 0; }
    }
  }

  lemma LeafStores(mem: Mem, root4: nat, root6: nat, contents: map<Mask, nat>, n: nat, right: bool, id: nat,
      ip: Addr, bits: nat, data: nat)
    requires CanPutLeaf(mem, root4, root6, n, right, id, ip, bits) && Represents(mem, contents)
    requires Stop(mem, root4, root6, RootOf(root4, root6, ip), ip, bits) == n && mem[n].bits < bits
    ensures Stored(mem, PutLeaf(mem, n, right, id, ip, bits, data), root4, root6, contents, id, ip, bits, data)
    ensures PutLeaf(mem, n, right, id, ip, bits, data).Keys == mem.Keys + {id}
  {
    PutLeafOk(mem, root4, root6, n, right, id, ip, bits, data);
    PutLeafExtends(mem, root4, root6, n, right, id, ip, bits, data);
    NewNode(mem, PutLeaf(mem, n, right, id, ip, bits, data), root4, root6, contents, id, ip, bits, data);
  }

  lemma AboveStores(mem: Mem, root4: nat, root6: nat, contents: map<Mask, nat>, p: nat, side: bool, n: nat, id: nat,
      ip: Addr, bits: nat, data: nat)
    requires CanPutAbove(mem, root4, root6, p, side, n, id, ip, bits) && Represents(mem, contents)
    requires Stop(mem, root4, root6, RootOf(root4, root6, ip), ip, bits) == n
    ensures Stored(mem, PutAbove(mem, p, side, n, id, ip, bits, data), root4, root6, contents, id, ip, bits, data)
    ensures PutAbove(mem, p, side, n, id, ip, bits, data).Keys == mem.Keys + {id}
  {
    PutAboveOk(mem, root4, root6, p, side, n, id, ip, bits, data);
    PutAboveExtends(mem, root4, root6, p, side, n, id, ip, bits, data);
    if Compact(mem, root4, root6, 0) { PutAboveCompact(mem, root4, root6, p, side, n, id, ip, bits, data); }
    NewNode(mem, PutAbove(mem, p, side, n, id, ip, bits, data), root4, root6, contents, id, ip, bits, data);
  }

  /** Everything a fork does, in one statement. */
  lemma ForkStores(mem: Mem, root4: nat, root6: nat, contents: map<Mask, nat>, p: nat, side: bool, n: nat, v: nat,
      at: nat,
                   id: nat, ip: Addr, bits: nat, data: nat)
    requires CanPutFork(mem, root4, root6, p, side, n, v, at, id, ip, bits) && mem[n].bits <= 128
        && Represents(mem, contents)
    requires Stop(mem, root4, root6, RootOf(root4, root6, ip), ip, bits) == n && !Covers(mem[n], ip, bits)
    ensures Stored(mem, PutFork(mem, p, side, n, v, at, id, ip, bits, data), root4, root6, contents, id, ip, bits, data)
    ensures PutFork(mem, p, side, n, v, at, id, ip, bits, data).Keys == mem.Keys + {v, id}
  {
    PutForkOk(mem, root4, root6, p, side, n, v, at, id, ip, bits, data);
    PutForkExtends(mem, root4, root6, p, side, n, v, at, id, ip, bits, data);
    if Compact(mem, root4, root6, 0) { PutForkCompact(mem, root4, root6, p, side, n, v, at, id, ip, bits, data); }
    NewNode(mem, PutFork(mem, p, side, n, v, at, id, ip, bits, data), root4, root6, contents, id, ip, bits, data);
  }

  /** mem' is mem with `data` stored under ip/bits, at node id. */
  ghost predicate Stored(mem: Mem, mem': Mem, root4: nat, root6: nat, contents: map<Mask, nat>, id: nat, ip: Addr,
      bits: nat, data: nat)
    requires bits <= 128
  {
    && Ok(mem', root4, root6) && Represents(mem', Put(contents, MaskOf(ip, bits), data))
    && IsNode(mem', id, ip, bits) && mem'[id].data == data
    && (Compact(mem, root4, root6, 0) ==> Compact(mem', root4, root6, if data == 0 then id else 0))
  }

  lemma UpdateStores(mem: Mem, root4: nat, root6: nat, contents: map<Mask, nat>, n: nat, ip: Addr, bits: nat, data: nat)
    requires Ok(mem, root4, root6) && Represents(mem, contents) && bits <= 128 && IsNode(mem, n, ip, bits)
    ensures Stored(mem, mem[n := mem[n].(data := data)], root4, root6, contents, n, ip, bits, data)
  {
    var mem' := mem[n := mem[n].(data := data)];
    DataOk(mem, root4, root6, n, data);
    SameMask(mem'[n], ip, bits);
    forall x | IsNode(mem, x, ip, bits) ensures x == n {
      ExactIsExact(mem, root4, root6, ip, bits, x);
      ExactIsExact(mem, root4, root6, ip, bits, n);
    }
    ExtendsContents(mem, mem', contents, n, ip, bits, data);
  }

  lemma DataOk(mem: Mem, root4: nat, root6: nat, n: nat, data: nat)
    requires Ok(mem, root4, root6) && n in mem
    ensures Ok(mem[n := mem[n].(data := data)], root4, root6)
  {
    var mem' := mem[n := mem[n].(data := data)];
    forall x | x in mem' ensures NodeOk(mem', root4, root6, x) {
      assert NodeOk(mem, root4, root6, x);
      Undisturbed(mem, mem', root4, root6, x);
    }
  }

  /** Nodes in order of strictly decreasing prefix length. */
  ghost predicate Descending(mem: Mem, nodes: seq<nat>) {
    && (forall i :: 0 <= i < |nodes| ==> nodes[i] in mem)
    && (forall i, j :: 0 <= i < j < |nodes| ==> mem[nodes[j]].bits < mem[nodes[i]].bits)
  }

  /** Half-way up: `found` is what covers ip below n, and n covers it too. */
  ghost predicate Walking(mem: Mem, root4: nat, root6: nat, ip: Addr, found: seq<nat>, n: nat)
    requires Ok(mem, root4, root6)
  {
    && (n == 0 || OnTheWay(mem, n, ip))
    && (forall y :: y in found ==> Matches(mem, y, ip, 128) && (n != 0 ==> mem[n].bits < mem[y].bits))
    && (forall y :: Matches(mem, y, ip, 128) ==> y in found || (n != 0 && Above(mem, root4, root6, y, n)))
    && Descending(mem, found)
  }

  lemma WalkStarts(mem: Mem, root4: nat, root6: nat, ip: Addr)
    requires Ok(mem, root4, root6)
    ensures Walking(mem, root4, root6, ip, [], Find(mem, root4, root6, ip, 128, Best))
  {
    var n := Find(mem, root4, root6, ip, 128, Best);
    BestIsLongest(mem, root4, root6, ip, 128, n);
    forall y | Matches(mem, y, ip, 128) ensures n != 0 && Above(mem, root4, root6, y, n) {
      BestIsLongest(mem, root4, root6, ip, 128, y);
    }
  }

  lemma OneLower(mem: Mem, nodes: seq<nat>, n: nat)
    requires Descending(mem, nodes) && n in mem && forall y :: y in nodes ==> y in mem && mem[n].bits < mem[y].bits
    ensures Descending(mem, nodes + [n])
  {
  }

  lemma GoUp(mem: Mem, root4: nat, root6: nat, ip: Addr, n: nat)
    requires Ok(mem, root4, root6) && n in mem && OnTheWay(mem, n, ip)
    ensures mem[n].parent == 0 || (mem[n].parent in mem && OnTheWay(mem, mem[n].parent, ip)
        && mem[mem[n].parent].bits < mem[n].bits)
  {
    assert NodeOk(mem, root4, root6, n);
    if mem[n].parent != 0 {
      var p := UpOne(mem, root4, root6, n);
      AboveCovers(mem, root4, root6, p, n, ip, 128);
    }
  }

  ghost predicate OnTheWay(mem: Mem, n: nat, ip: Addr) {
    n in mem && mem[n].bits <= 128 && Covers(mem[n], ip, 128) && V4(mem[n].ip) == V4(ip)
  }

  lemma WalkStep(mem: Mem, root4: nat, root6: nat, ip: Addr, found: seq<nat>, n: nat, found': seq<nat>, p: nat)
    requires Ok(mem, root4, root6) && Walking(mem, root4, root6, ip, found, n) && n != 0
    requires p == mem[n].parent && found' == if mem[n].data != 0 then found + [n] else found
    ensures Walking(mem, root4, root6, ip, found', p)
    ensures p != 0 ==> p in mem && mem[p].bits < mem[n].bits
  {
    GoUp(mem, root4, root6, ip, n);
    StillPending(mem, root4, root6, ip, found, n, found', p);
    assert forall y :: y in found ==> Matches(mem, y, ip, 128);
    OneLower(mem, found, n);
    assert Descending(mem, found');
    forall y | y in found' ensures Matches(mem, y, ip, 128) && (p != 0 ==> mem[p].bits < mem[y].bits) {
      if y !in found { assert y == n; }
    }
  }

  lemma StillPending(mem: Mem, root4: nat, root6: nat, ip: Addr, found: seq<nat>, n: nat, found': seq<nat>, p: nat)
    requires Ok(mem, root4, root6) && n in mem && p == mem[n].parent && (p == 0 || p in mem)
    requires found' == if mem[n].data != 0 then found + [n] else found
    requires forall y :: Matches(mem, y, ip, 128) ==> y in found || Above(mem, root4, root6, y, n)
    ensures forall y :: Matches(mem, y, ip, 128) ==> y in found' || (p != 0 && Above(mem, root4, root6, y, p))
  {
    forall y | Matches(mem, y, ip, 128) ensures y in found' || (p != 0 && Above(mem, root4, root6, y, p)) {
      if y == n { assert found' == found + [n]; }
    }
  }

  // ----- what look-up means for the map -----

  /** The prefix covers ip/bits and belongs to the same family. */
  predicate CoversMask(m: Mask, ip: Addr, bits: nat) {
    m.0 == V4(ip) && |m.1| <= bits && |m.1| <= 128 && m.1 == ip[..|m.1|]
  }

  /** Longest-prefix match over a plain map. */
  ghost predicate LongestMatch(contents: map<Mask, nat>, ip: Addr, bits: nat, found: Option<Mask>) {
    match found
    case None => forall m :: m in contents ==> !CoversMask(m, ip, bits)
    case Some(best) =>
      && best in contents && CoversMask(best, ip, bits)
      && forall m :: m in contents && CoversMask(m, ip, bits) ==> |m.1| <= |best.1|
  }

  lemma MaskCovers(n: Node, ip: Addr, bits: nat)
    requires n.bits <= 128 && bits <= 128
    ensures CoversMask(MaskOf(n.ip, n.bits), ip, bits) <==> V4(n.ip) == V4(ip) && Covers(n, ip, bits)
  {
    AgreeAt(n.ip, ip, n.bits);
    assert |n.ip[..n.bits]| == n.bits;
  }

  ghost function FoundMask(mem: Mem, r: nat): Option<Mask> {
    if r in mem && mem[r].bits <= 128 then Some(MaskOf(mem[r].ip, mem[r].bits)) else None
  }

  lemma FindMeans(mem: Mem, root4: nat, root6: nat, contents: map<Mask, nat>, ip: Addr, bits: nat)
    requires Ok(mem, root4, root6) && Represents(mem, contents) && bits <= 128
    ensures var r := Find(mem, root4, root6, ip, bits, Best);
            && LongestMatch(contents, ip, bits, FoundMask(mem, r))
            && (r != 0 ==> NodeOk(mem, root4, root6, r) && Holds(contents, MaskOf(mem[r].ip, mem[r].bits), mem[r].data))
    ensures var r := Find(mem, root4, root6, ip, bits, Exact);
            && (r != 0 <==> MaskOf(ip, bits) in contents)
            && (r != 0 ==> NodeOk(mem, root4, root6, r) && Holds(contents, MaskOf(mem[r].ip, mem[r].bits), mem[r].data))
  {
    BestMeans(mem, root4, root6, contents, ip, bits);
    ExactMeans(mem, root4, root6, contents, ip, bits);
  }

  lemma BestMeans(mem: Mem, root4: nat, root6: nat, contents: map<Mask, nat>, ip: Addr, bits: nat)
    requires Ok(mem, root4, root6) && Represents(mem, contents) && bits <= 128
    ensures var r := Find(mem, root4, root6, ip, bits, Best);
            && LongestMatch(contents, ip, bits, FoundMask(mem, r))
            && (r != 0 ==> NodeOk(mem, root4, root6, r) && Holds(contents, MaskOf(mem[r].ip, mem[r].bits), mem[r].data))
  {
    var r := Find(mem, root4, root6, ip, bits, Best);
    BestIsLongest(mem, root4, root6, ip, bits, r);
    if r != 0 {
      assert NodeOk(mem, root4, root6, r);
      MaskCovers(mem[r], ip, bits);
    }
    forall m | m in contents && CoversMask(m, ip, bits) ensures r != 0 && |m.1| <= mem[r].bits {
      var y :| y in mem && Stores(mem[y], m);
      MaskCovers(mem[y], ip, bits);
      BestIsLongest(mem, root4, root6, ip, bits, y);
    }
  }

  lemma ExactMeans(mem: Mem, root4: nat, root6: nat, contents: map<Mask, nat>, ip: Addr, bits: nat)
    requires Ok(mem, root4, root6) && Represents(mem, contents) && bits <= 128
    ensures var r := Find(mem, root4, root6, ip, bits, Exact);
            && (r != 0 <==> MaskOf(ip, bits) in contents)
            && (r != 0 ==> NodeOk(mem, root4, root6, r) && Holds(contents, MaskOf(mem[r].ip, mem[r].bits), mem[r].data))
  {
    var r := Find(mem, root4, root6, ip, bits, Exact);
    if r != 0 {
      assert NodeOk(mem, root4, root6, r);
      ExactIsExact(mem, root4, root6, ip, bits, r);
      SameMask(mem[r], ip, bits);
    }
    if MaskOf(ip, bits) in contents {
      var y :| y in mem && Stores(mem[y], MaskOf(ip, bits));
      SameMask(mem[y], ip, bits);
      ExactIsExact(mem, root4, root6, ip, bits, y);
    }
  }

  /** What cidr_new_tree parses: 0.0.0.0/0 is ::ffff:0:0/96, and 0::/0. */
  function V4Base(): (a: Addr)
    ensures forall k :: 0 <= k < 128 ==> a[k] == (80 <= k < 96)
  {
    Repeat(false, 80) + Repeat(true, 16) + Repeat(false, 32)
  }

  function Zero(): (a: Addr)
    ensures forall k :: 0 <= k < 128 ==> !a[k]
  {
    Repeat(false, 128)
  }

  function Fresh(base: Addr, zero: Addr): Mem {
    map[1 := Node(base, 96, 0, 0, 0, 0), 2 := Node(zero, 0, 0, 0, 0, 0)]
  }

  lemma FreshOk(base: Addr, zero: Addr)
    requires Base4(base) && !V4(zero)
    ensures Ok(Fresh(base, zero), 1, 2) && Represents(Fresh(base, zero), map[]) && Compact(Fresh(base, zero), 1, 2, 0)
    ensures Fresh(base, zero).Keys == {1, 2}
  {
  }

  class Tree {
    var mem: Mem
    var next: nat
    const root4: nat
    const root6: nat
    ghost var contents: map<Mask, nat>

    ghost predicate Valid()
      reads this
    {
      && Ok(mem, root4, root6) && Represents(mem, contents)
      && next != 0 && forall x :: x in mem ==> x < next
    }

    /** Every node without data but the roots and `but` is needed as a fork. */
    ghost predicate Tidy(but: nat)
      reads this
    {
      Compact(mem, root4, root6, but)
    }

    /** cidr_new_tree */
    constructor ()
      ensures Valid() && Tidy(0) && contents == map[]
    {
      FamilyBases();
      FreshOk(V4Base(), Zero());
      root4, root6, next := 1, 2, 3;
      mem, contents := Fresh(V4Base(), Zero()), map[];
    }

    /** n itself is the mask's node. */
    method Update(n: nat, ip: Addr, bits: nat, data: nat)
      requires Valid() && bits <= 128 && IsNode(mem, n, ip, bits)
      modifies this
      ensures Valid() && contents == Put(old(contents), MaskOf(ip, bits), data)
          && mem == old(mem)[n := old(mem)[n].(data := data)]
      ensures old(Tidy(0)) ==> Tidy(if data == 0 then n else 0)
    {
      UpdateStores(mem, root4, root6, contents, n, ip, bits, data);
      mem, contents := mem[n := mem[n].(data := data)], Put(contents, MaskOf(ip, bits), data);
    }

    /** Write the cells that store `data` under ip/bits at `node`. */
    method Become(mem': Mem, next': nat, node: nat, ip: Addr, bits: nat, data: nat)
      requires Valid() && bits <= 128 && Stored(mem, mem', root4, root6, contents, node, ip, bits, data)
      requires next' != 0 && forall x :: x in mem'.Keys ==> x < next'
      modifies this
      ensures Valid() && mem == mem' && contents == Put(old(contents), MaskOf(ip, bits), data)
      ensures old(Tidy(0)) ==> Tidy(if data == 0 then node else 0)
    {
      mem, next, contents := mem', next', Put(contents, MaskOf(ip, bits), data);
    }

    method InsertLeaf(n: nat, right: bool, ip: Addr, bits: nat, data: nat) returns (node: nat)
      requires Valid() && n in mem && bits <= 128 && mem[n].bits < bits && Covers(mem[n], ip, bits)
      requires V4(mem[n].ip) == V4(ip) && right == ip[mem[n].bits] && Child(mem[n], right) == 0
      requires Stop(mem, root4, root6, RootOf(root4, root6, ip), ip, bits) == n
      modifies this
      ensures Valid() && contents == Put(old(contents), MaskOf(ip, bits), data)
      ensures IsNode(mem, node, ip, bits) && mem[node].data == data
      ensures old(Tidy(0)) ==> Tidy(if data == 0 then node else 0)
    {
      node := next;
      AgreeLess(mem[n].ip, ip, mem[n].bits, mem[n].bits);
      LeafStores(mem, root4, root6, contents, n, right, node, ip, bits, data);
      Become(PutLeaf(mem, n, right, node, ip, bits, data), next + 1, node, ip, bits, data);
    }

    /** The mask is shorter than n's prefix: its node takes n's place. */
    method InsertAbove(p: nat, side: bool, n: nat, ip: Addr, bits: nat, data: nat) returns (node: nat)
      requires Valid() && CanPutAbove(mem, root4, root6, p, side, n, next, ip, bits)
      requires Stop(mem, root4, root6, RootOf(root4, root6, ip), ip, bits) == n
      modifies this
      ensures Valid() && contents == Put(old(contents), MaskOf(ip, bits), data)
      ensures IsNode(mem, node, ip, bits) && mem[node].data == data
      ensures old(Tidy(0)) ==> Tidy(if data == 0 then node else 0)
    {
      node := next;
      AboveStores(mem, root4, root6, contents, p, side, n, node, ip, bits, data);
      Become(PutAbove(mem, p, side, n, node, ip, bits, data), next + 1, node, ip, bits, data);
    }

    /** n's prefix and the mask part at bit i: a virtual node there holds both. */
    method InsertFork(p: nat, side: bool, n: nat, i: nat, ip: Addr, bits: nat, data: nat) returns (node: nat)
      requires Valid() && CanPutFork(mem, root4, root6, p, side, n, next + 1, i, next, ip, bits) && mem[n].bits <= 128
      requires Stop(mem, root4, root6, RootOf(root4, root6, ip), ip, bits) == n && !Covers(mem[n], ip, bits)
      modifies this
      ensures Valid() && contents == Put(old(contents), MaskOf(ip, bits), data)
      ensures IsNode(mem, node, ip, bits) && mem[node].data == data
      ensures old(Tidy(0)) ==> Tidy(if data == 0 then node else 0)
    {
      node := next;
      var v := next + 1;
      ForkStores(mem, root4, root6, contents, p, side, n, v, i, node, ip, bits, data);
      Become(PutFork(mem, p, side, n, v, i, node, ip, bits, data), next + 2, node, ip, bits, data);
    }

    /** cidr_add_node.  A prefix of the IPv4 family has to lie below that
        family's root, ::ffff:0:0/96.  One that does not has nowhere to go: the
        code would hang it from a parent that is not there, and 0 stands for that. */
    method Add(ip: Addr, bits: nat, data: nat) returns (node: nat)
      requires Valid() && bits <= 128
      modifies this
      ensures Valid() && root4 in mem && root6 in mem
      ensures node == 0 <==> !Covers(old(mem)[RootOf(root4, root6, ip)], ip, bits)
      ensures node == 0 ==> mem == old(mem) && contents == old(contents)
      ensures node != 0 ==> contents == Put(old(contents), MaskOf(ip, bits), data)
      ensures node != 0 ==> IsNode(mem, node, ip, bits) && mem[node].data == data
      ensures old(Tidy(0)) ==> Tidy(if data == 0 then node else 0)
    {
      node := 0;
      var root := RootOf(root4, root6, ip);
      var n, p, side := root, 0, false;
      var i := 0;
      assert NodeOk(mem, root4, root6, root);
      while i < 128
        invariant Valid() && mem == old(mem) && contents == old(contents) && i < 128
        invariant Arrived(mem, root, p, side, n, ip, bits) && mem[n].bits <= 128
        invariant n == root ==> i == 0
        invariant n != root ==> i == mem[p].bits && Covers(mem[root], ip, bits)
        invariant Stop(mem, root4, root6, root, ip, bits) == Stop(mem, root4, root6, n, ip, bits)
        decreases 128 - mem[n].bits
      {
        assert NodeOk(mem, root4, root6, n);
        ghost var lo := i;
        i := BitDiff(mem[n].ip, ip, i, Min(mem[n].bits, bits));
        StepDiff(mem, root, p, side, n, ip, ip, bits, lo);
        var right := if i < 128 then ip[i] else false;
        if i == mem[n].bits {
          if i == bits {
            node := n;
            Update(n, ip, bits, data);
            return;
          }
          var c := Child(mem[n], right);
          if c == 0 {
            node := InsertLeaf(n, right, ip, bits, data);
            return;
          }
          n, p, side := c, n, right;
        } else {
          if n == root { return; }
          ForkFits(mem[p], mem[n], side, ip, bits, i);
          if i == bits {
            node := InsertAbove(p, side, n, ip, bits, data);
          } else {
            node := InsertFork(p, side, n, i, ip, bits, data);
          }
          return;
        }
      }
      assert false;
    }

    // ----- look-up -----

    /** cidr_get_closest_data_parent */
    method ClosestDataParent(node: nat) returns (r: nat)
      requires Valid() && node in mem
      ensures NodeOk(mem, root4, root6, node) && r == Nearest(mem, root4, root6, mem[node].parent)
    {
      assert NodeOk(mem, root4, root6, node);
      r := mem[node].parent;
      while r != 0
        invariant r == 0 || r in mem
        invariant Nearest(mem, root4, root6, r) == Nearest(mem, root4, root6, mem[node].parent)
        decreases if r == 0 then 0 else 1 + mem[r].bits
      {
        if mem[r].data != 0 { return; }
        assert NodeOk(mem, root4, root6, r);
        assert mem[r].parent != 0 ==> NodeOk(mem, root4, root6, mem[r].parent);
        r := mem[r].parent;
      }
    }

    /** _cidr_find_node: the walk computes Find for the address it really looks
        for, which means the longest stored prefix that covers that, or its own
        entry.  What it requires is what the code asserts on the way. */
    method FindNode(ip: Addr, bits: nat, mode: Mode) returns (r: nat)
      requires Valid() && bits <= 128 && Asserted(ip, bits)
      ensures r == Find(mem, root4, root6, Sought(ip), bits, mode)
      ensures mode == Best ==> LongestMatch(contents, Sought(ip), bits, FoundMask(mem, r))
      ensures mode == Exact ==> (r != 0 <==> MaskOf(Sought(ip), bits) in contents)
      ensures mode != Raw && r != 0 ==> Holds(contents, MaskOf(mem[r].ip, mem[r].bits), mem[r].data)
    {
      FindMeans(mem, root4, root6, contents, Sought(ip), bits);
      r := Search(ip, bits, mode);
    }

    method Search(ip: Addr, bits: nat, mode: Mode) returns (r: nat)
      requires Valid() && bits <= 128 && Asserted(ip, bits)
      ensures r == Find(mem, root4, root6, Sought(ip), bits, mode)
    {
      r := 0;
      ghost var q := Sought(ip);
      var root := RootOf(root4, root6, ip);
      var n := root;
      var i := mem[n].bits;
      ghost var p, side := 0, false;
      SoughtIs(ip);
      while i <= 128
        invariant i < 128 && root == RootOf(root4, root6, q) && Arrived(mem, root, p, side, n, q, bits)
        invariant i == mem[if n == root then n else p].bits && (V4(ip) ==> 96 <= i)
        invariant Stop(mem, root4, root6, root, q, bits) == Stop(mem, root4, root6, n, q, bits)
        decreases 128 - mem[n].bits
      {
        assert NodeOk(mem, root4, root6, n);
        WalkDiff(mem, root4, root6, p, side, n, ip, bits, i);
        i := BitDiff(mem[n].ip, ip, i, Min(mem[n].bits, bits));
        var right := if i < 128 then ip[i] else false;
        assert i <= mem[n].bits && i <= bits;
        if i == mem[n].bits {
          if i == bits {
            if mem[n].data != 0 || mode == Raw { return n; }
            if mode != Best { return 0; }
            r := ClosestDataParent(n);
            return;
          }
          var c := Child(mem[n], right);
          if c == 0 {
            if mode != Best { return 0; }
            if mem[n].data == 0 { r := ClosestDataParent(n); return; }
            return n;
          }
          n, p, side := c, n, right;
        } else {
          if mode == Best { r := ClosestDataParent(n); }
          return;
        }
      }
      assert false;
    }

    /** CIDR_SEARCH_ALL_MATCHES: from the best match up through the parents,
        the stored prefixes that cover ip, all of them, longest first. */
    method AllMatches(ip: Addr) returns (found: seq<nat>)
      requires Valid()
      ensures forall y :: y in found <==> Matches(mem, y, Sought(ip), 128)
      ensures Descending(mem, found)
    {
      found := [];
      ghost var q := Sought(ip);
      var n := FindNode(ip, 128, Best);
      WalkStarts(mem, root4, root6, q);
      while n != 0
        invariant Walking(mem, root4, root6, q, found, n)
        decreases if n == 0 then 0 else 1 + mem[n].bits
      {
        ghost var found0, n0 := found, n;
        if mem[n].data != 0 { found := found + [n]; }
        n := mem[n].parent;
        WalkStep(mem, root4, root6, q, found0, n0, found, n);
      }
    }

    method GetData(ip: Addr, bits: nat) returns (data: nat)
      requires Valid() && bits <= 128 && Asserted(ip, bits)
      ensures var mask := MaskOf(Sought(ip), bits); data == if mask in contents then contents[mask] else 0
    {
      var n := FindNode(ip, bits, Exact);
      ExactIsExact(mem, root4, root6, Sought(ip), bits, n);
      if n == 0 { return 0; }
      SameMask(mem[n], Sought(ip), bits);
      data := mem[n].data;
    }

    // ----- removal -----

    /** _cidr_collapse_node */
    method CollapseNode(n: nat) returns (freed: bool)
      requires Valid() && n in mem && mem[n].data == 0 && Tidy(n)
      modifies this`mem
      ensures Valid() && Tidy(0) && mem == Collapse(old(mem), root4, root6, n) && freed == (n !in mem)
    {
      CollapseFrees(mem, root4, root6, n);
      CollapseCompact(mem, root4, root6, n);
      FreesContents(mem, Collapse(mem, root4, root6, n), contents);
      assert NodeOk(mem, root4, root6, n);
      assert mem[n].parent == 0 <==> n == root4 || n == root6;
      if mem[n].parent == 0 { return false; }
      if mem[n].l != 0 && mem[n].r != 0 { return false; }
      CollapsesTo(mem, root4, root6, n);
      if mem[n].l != 0 || mem[n].r != 0 {
        var c := if mem[n].l != 0 then mem[n].l else mem[n].r;
        mem := Splice(mem, n, c);
        return true;
      }
      var p := mem[n].parent;
      mem := Unlink(mem, n);
      if mem[p].data == 0 && mem[p].parent != 0 {
        var sibling := if mem[p].l != 0 then mem[p].l else mem[p].r;
        mem := Splice(mem, p, sibling);
      }
      freed := true;
    }

    /** cidr_rem_node */
    method RemNode(n: nat) returns (removed: bool)
      requires Valid() && Tidy(0) && (n == 0 || n in mem)
      modifies this
      ensures Valid() && Tidy(0) && removed == (n != 0 && old(mem)[n].data != 0)
      ensures !removed ==> mem == old(mem) && contents == old(contents)
      ensures removed ==>
          NodeOk(old(mem), root4, root6, n) && contents == old(contents) - {MaskOf(old(mem)[n].ip, old(mem)[n].bits)}
      ensures removed ==> Frees(old(mem)[n := old(mem)[n].(data := 0)], mem)
      ensures removed ==> mem.Keys >= old(mem).Keys - {n} - {old(mem)[n].parent}
      ensures removed && old(mem)[n].parent !in mem && old(mem)[n].parent in old(mem)
          ==> old(mem)[old(mem)[n].parent].data == 0
    {
      if n == 0 || mem[n].data == 0 { return false; }
      assert NodeOk(mem, root4, root6, n);
      AgreeAt(mem[n].ip, mem[n].ip, mem[n].bits);
      Update(n, mem[n].ip, mem[n].bits, 0);
      CollapseFrees(mem, root4, root6, n);
      var _ := CollapseNode(n);
      removed := true;
    }

    /** cidr_rem_node_by_cidr */
    method RemByCidr(ip: Addr, bits: nat) returns (removed: bool)
      requires Valid() && Tidy(0) && bits <= 128 && Asserted(ip, bits)
      modifies this
      ensures Valid() && Tidy(0) && removed == (MaskOf(Sought(ip), bits) in old(contents))
      ensures contents == old(contents) - {MaskOf(Sought(ip), bits)}
    {
      var n := FindNode(ip, bits, Exact);
      ExactIsExact(mem, root4, root6, Sought(ip), bits, n);
      if n != 0 { SameMask(mem[n], Sought(ip), bits); }
      removed := RemNode(n);
    }

    /** cidr_rem_empty_node, for a node whose data the caller has cleared. */
    method RemEmptyNode(n: nat) returns (freed: bool)
      requires Valid() && (n == 0 || n in mem) && Tidy(n)
      modifies this`mem
      ensures Valid() && (n != 0 && old(mem)[n].data == 0 ==> Tidy(0)) && freed == (n != 0 && n !in mem)
    {
      if n == 0 || mem[n].data != 0 { return false; }
      freed := CollapseNode(n);
    }
  }

  lemma FamilyBases()
    ensures Base4(V4Base()) && V4(V4Base()) && !V4(Zero())
  {
    UniformIs(V4Base(), 0, 80, false);
    UniformIs(V4Base(), 80, 96, true);
    UniformIs(V4Base(), 96, 128, false);
    UniformIs(Zero(), 80, 96, true);
    UniformIs(Zero(), 96, 112, false);
    assert !Zero()[80];
  }
}
