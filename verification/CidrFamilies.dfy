/** When keeping the two address families in separate trees, and comparing
    nothing above their roots, gives the right answers. */
module CidrFamilies {
  import opened CidrTree
  import opened CidrStore

  /** ipmask_is_single_family: what gline.c asks before it uses the tree. */
  predicate SingleFamily(ip: Addr, bits: nat)
    requires bits <= 128
  {
    V4(ip) || !Agree(V4Base(), ip, bits)
  }

  /** What cidr_add_node needs: an IPv4 prefix lies below ::ffff:0:0/96. */
  predicate Rooted(ip: Addr, bits: nat)
    requires bits <= 128
  {
    V4(ip) ==> 96 <= bits && Agree(V4Base(), ip, 96)
  }

  /** The prefix covers q, whatever family either is in. */
  predicate CoversAny(ip: Addr, bits: nat, q: Addr)
    requires bits <= 128
  {
    Agree(ip, q, bits)
  }

  lemma MappedIs(ip: Addr)
    ensures Mapped(ip) <==> Agree(V4Base(), ip, 96)
    ensures Mapped(ip) ==> V4(ip)
  {
    UniformIs(ip, 0, 80, false);
    UniformIs(ip, 80, 96, true);
    AgreeAt(V4Base(), ip, 96);
    if Agree(V4Base(), ip, 96) {
      assert forall k :: 0 <= k < 96 ==> V4Base()[k] == ip[k];
    }
  }

  /** A stored prefix that covers a mapped or an IPv6 address is in its family. */
  lemma SameFamily(ip: Addr, bits: nat, q: Addr)
    requires bits <= 128 && SingleFamily(ip, bits) && Rooted(ip, bits) && CoversAny(ip, bits, q)
    requires V4(q) ==> Mapped(q)
    ensures V4(ip) == V4(q)
  {
    MappedIs(q);
    MappedIs(ip);
    AgreeAt(ip, q, bits);
    if V4(ip) {
      AgreeAt(V4Base(), ip, 96);
      AgreeAt(V4Base(), q, 96);
    } else if V4(q) {
      AgreeAt(V4Base(), q, 96);
      AgreeAt(V4Base(), ip, bits);
      AgreeAt(V4Base(), ip, 96);
    }
  }

  /** ::/96 is a prefix gline.c puts in the IPv6 tree; it covers ::a.b.c.d,
      which look-up takes to the IPv4 tree. */
  lemma CompatibleIsMissed(q: Addr)
    requires V4(q) && !Mapped(q)
    ensures SingleFamily(Zero(), 96) && Rooted(Zero(), 96) && CoversAny(Zero(), 96, q) && !V4(Zero())
  {
    FamilyBases();
    UniformIs(q, 0, 80, false);
    UniformIs(q, 80, 96, false);
    AgreeAt(Zero(), q, 96);
    AgreeAt(V4Base(), Zero(), 96);
    assert V4Base()[80] != Zero()[80];
  }

  /** Every prefix gline.c stores that covers q is found in q's own tree, if
      and only if q is not an IPv4-compatible ::a.b.c.d. */
  lemma OneTreeIsEnough(q: Addr)
    ensures (forall ip: Addr, bits: nat ::
        bits <= 128 && SingleFamily(ip, bits) && Rooted(ip, bits) && CoversAny(ip, bits, q) ==> V4(ip) == V4(q))
            <==> (V4(q) ==> Mapped(q))
  {
    if V4(q) ==> Mapped(q) {
      forall ip: Addr, bits: nat | bits <= 128 && SingleFamily(ip, bits) && Rooted(ip, bits) && CoversAny(ip, bits, q)
        ensures V4(ip) == V4(q)
      {
        SameFamily(ip, bits, q);
      }
    } else {
      CompatibleIsMissed(q);
    }
  }

  // ----- what is not compared -----

  /** The three searches for ip/bits answer for ip: the longest stored prefix
      that covers it, its entry if it has one, its node if there is one. */
  ghost predicate Right(mem: Mem, root4: nat, root6: nat, contents: map<Mask, nat>, ip: Addr, bits: nat)
    requires Ok(mem, root4, root6) && bits <= 128
  {
    var q := Sought(ip);
    && LongestMatch(contents, ip, bits, FoundMask(mem, Find(mem, root4, root6, q, bits, Best)))
    && (Find(mem, root4, root6, q, bits, Exact) != 0 <==> MaskOf(ip, bits) in contents)
    && forall n :: IsNode(mem, n, ip, bits) <==> n != 0 && n == Find(mem, root4, root6, q, bits, Raw)
  }

  ghost predicate AlwaysRight(ip: Addr) {
    forall mem, root4, root6, contents, bits ::
      Ok(mem, root4, root6) && Represents(mem, contents) && bits <= 128 && Asserted(ip, bits) ==>
        Right(mem, root4, root6, contents, ip, bits)
  }

  lemma MappedIsRight(mem: Mem, root4: nat, root6: nat, contents: map<Mask, nat>, ip: Addr, bits: nat)
    requires Ok(mem, root4, root6) && Represents(mem, contents) && bits <= 128 && (V4(ip) ==> Mapped(ip))
    ensures Right(mem, root4, root6, contents, ip, bits)
  {
    SoughtIs(ip);
    FindMeans(mem, root4, root6, contents, ip, bits);
    forall n ensures IsNode(mem, n, ip, bits) <==> n != 0 && n == Find(mem, root4, root6, ip, bits, Raw) {
      ExactIsExact(mem, root4, root6, ip, bits, n);
    }
  }

  /** The tree that holds ::ffff:a.b.c.d/128 alone. */
  lemma OneAddress(q: Addr) returns (mem: Mem)
    requires V4(q) && Mapped(q)
    ensures Ok(mem, 1, 2) && Represents(mem, map[MaskOf(q, 128) := 1])
  {
    FamilyBases();
    MappedIs(q);
    var base, zero := V4Base(), Zero();
    FreshOk(base, zero);
    var empty := Fresh(base, zero);
    AgreeLess(base, q, 96, 96);
    LeafStores(empty, 1, 2, map[], 1, q[96], 3, q, 128, 1);
    mem := PutLeaf(empty, 1, q[96], 3, q, 128, 1);
  }

  /** Asked for ::a.b.c.d, it answers with ::ffff:a.b.c.d. */
  lemma WrongMatch(ip: Addr) returns (mem: Mem, contents: map<Mask, nat>)
    requires V4(ip) && !Mapped(ip)
    ensures Ok(mem, 1, 2) && Represents(mem, contents) && Asserted(ip, 128)
    ensures MaskOf(ip, 128) !in contents && Find(mem, 1, 2, Sought(ip), 128, Exact) != 0
  {
    SoughtIs(ip);
    var q := Sought(ip);
    mem := OneAddress(q);
    contents := map[MaskOf(q, 128) := 1];
    FindMeans(mem, 1, 2, contents, q, 128);
    assert q[..128] == q && ip[..128] == ip;
  }

  /** The searches answer for the address they are given, in every tree, if
      and only if it is not an IPv4-compatible ::a.b.c.d. */
  lemma SearchIsRightIff(ip: Addr)
    ensures AlwaysRight(ip) <==> (V4(ip) ==> Mapped(ip))
  {
    if V4(ip) ==> Mapped(ip) {
      forall mem, root4, root6, contents, bits
        | Ok(mem, root4, root6) && Represents(mem, contents) && bits <= 128 && Asserted(ip, bits)
        ensures Right(mem, root4, root6, contents, ip, bits)
      {
        MappedIsRight(mem, root4, root6, contents, ip, bits);
      }
    } else {
      var mem, contents := WrongMatch(ip);
      assert !Right(mem, 1, 2, contents, ip, 128);
    }
  }

  /** ::1.2.3.4 */
  function Compatible(): (a: Addr)
    ensures forall k :: 0 <= k < 128 ==> a[k] == (k in {103, 110, 118, 119, 125})
  {
    seq(128, k => k in {103, 110, 118, 119, 125})
  }

  /** The exact search for ::1.2.3.4/128 finds ::ffff:1.2.3.4/128. */
  lemma CompatibleIsMistaken() returns (mem: Mem, contents: map<Mask, nat>)
    ensures Ok(mem, 1, 2) && Represents(mem, contents) && MaskOf(Compatible(), 128) !in contents
    ensures Find(mem, 1, 2, Sought(Compatible()), 128, Exact) != 0
  {
    CompatibleIs();
    mem, contents := WrongMatch(Compatible());
  }

  lemma CompatibleIs()
    ensures V4(Compatible()) && !Mapped(Compatible())
  {
    var ip := Compatible();
    UniformIs(ip, 0, 80, false);
    UniformIs(ip, 80, 96, true);
    UniformIs(ip, 80, 96, false);
    UniformIs(ip, 96, 112, false);
    assert ip[103] && !ip[80];
  }

  // ----- adding -----

  /** There is a place for a mask, below its family's root, if and only if it
      is not of an IPv4 address that is written unmapped or cut above it. */
  lemma HasPlaceIff(mem: Mem, root4: nat, root6: nat, ip: Addr, bits: nat)
    requires Ok(mem, root4, root6) && bits <= 128
    ensures Covers(mem[RootOf(root4, root6, ip)], ip, bits) <==> (V4(ip) ==> Mapped(ip) && bits >= 96)
  {
    var root := mem[root4].ip;
    AgreeAt(root, ip, 96);
    UniformIs(root, 0, 80, false);
    UniformIs(root, 80, 96, true);
    UniformIs(ip, 0, 80, false);
    UniformIs(ip, 80, 96, true);
    if Agree(root, ip, 96) {
      assert forall k :: 0 <= k < 96 ==> root[k] == ip[k];
    }
  }

  /** ::1.2.3.4/128 has none. */
  lemma CompatibleHasNoPlace(mem: Mem, root4: nat, root6: nat)
    requires Ok(mem, root4, root6)
    ensures !Covers(mem[RootOf(root4, root6, Compatible())], Compatible(), 128)
  {
    CompatibleIs();
    HasPlaceIff(mem, root4, root6, Compatible(), 128);
  }
}
