/** _CIDR_ITER: every data node of both families, once, with an explicit stack
    of 129 entries and a loop body that may remove the node it is on. */
module CidrIter {
  import opened CidrTree
  import opened CidrStore

  /** x lies in the part of the tree below a, a included.  This looks only at
      addresses, so freeing other nodes does not change it. */
  predicate Within(mem: Mem, a: nat, x: nat)
    requires a in mem && x in mem
  {
    mem[a].bits <= 128 && mem[x].bits <= 128 && V4(mem[a].ip) == V4(mem[x].ip) && Covers(mem[a], mem[x].ip, mem[x].bits)
  }

  /** Nodes within a are a itself and what is within its children. */
  lemma WithinSplits(mem: Mem, root4: nat, root6: nat, a: nat, x: nat)
    requires Ok(mem, root4, root6) && a in mem && x in mem && Within(mem, a, x) && x != a
    ensures mem[a].bits < mem[x].bits <= 128
    ensures var c := Child(mem[a], mem[x].ip[mem[a].bits]); c != 0 && c in mem && Within(mem, c, x)
  {
    assert NodeOk(mem, root4, root6, a);
    assert NodeOk(mem, root4, root6, x);
    var ip, bits := mem[x].ip, mem[x].bits;
    AgreeAt(ip, ip, bits);
    ExactIsExact(mem, root4, root6, ip, bits, x);
    assert IsNode(mem, x, ip, bits);
    if mem[a].bits == bits { ExactIsExact(mem, root4, root6, ip, bits, a); }
    WalkDown(mem, root4, root6, a, x);
  }

  lemma WalkDown(mem: Mem, root4: nat, root6: nat, a: nat, x: nat)
    requires Ok(mem, root4, root6) && a in mem && x in mem && Within(mem, a, x) && mem[a].bits < mem[x].bits <= 128
    requires Agree(mem[x].ip, mem[x].ip, mem[x].bits)
    ensures var c := Child(mem[a], mem[x].ip[mem[a].bits]); c != 0 && c in mem && Within(mem, c, x)
  {
    var ip, bits := mem[x].ip, mem[x].bits;
    var c := Child(mem[a], ip[mem[a].bits]);
    assert NodeOk(mem, root4, root6, a);
    OnTheWalk(mem, root4, root6, x, ip, bits);
    OnTheWalk(mem, root4, root6, a, ip, bits);
    // The walk from a ends at x, so it goes through the child on x's side.
    assert Stop(mem, root4, root6, a, ip, bits) == x;
    assert c != 0;
    StopsBelow(mem, root4, root6, c, ip, bits);
    AboveCovers(mem, root4, root6, c, x, ip, bits);
  }

  lemma ChildrenApart(mem: Mem, root4: nat, root6: nat, a: nat, x: nat)
    requires Ok(mem, root4, root6) && a in mem && x in mem && mem[a].l != 0 && mem[a].r != 0
    ensures mem[a].l in mem && mem[a].r in mem && !(Within(mem, mem[a].l, x) && Within(mem, mem[a].r, x))
  {
    assert NodeOk(mem, root4, root6, a);
    if Within(mem, mem[a].l, x) { AgreeBit(mem[mem[a].l].ip, mem[x].ip, mem[a].bits, mem[mem[a].l].bits); }
    if Within(mem, mem[a].r, x) { AgreeBit(mem[mem[a].r].ip, mem[x].ip, mem[a].bits, mem[mem[a].r].bits); }
  }

  lemma ChildWithin(mem: Mem, root4: nat, root6: nat, a: nat, right: bool, x: nat)
    requires Ok(mem, root4, root6) && a in mem && x in mem && Child(mem[a], right) != 0
    ensures Child(mem[a], right) in mem
    ensures Within(mem, Child(mem[a], right), x) ==> Within(mem, a, x) && x != a
  {
    var c := Child(mem[a], right);
    assert NodeOk(mem, root4, root6, a);
    if Within(mem, c, x) {
      AgreeLess(mem[c].ip, mem[x].ip, mem[a].bits, mem[c].bits);
      AgreeLess(mem[c].ip, mem[a].ip, mem[a].bits, mem[a].bits);
      AgreeBoth(mem[a].ip, mem[c].ip, mem[x].ip, mem[a].bits);
    }
  }

  // ----- what is left to do -----

  /** x lies below one of the nodes still to be visited. */
  ghost predicate Pending(mem: Mem, todo: seq<nat>, x: nat)
    requires x in mem
  {
    exists i :: 0 <= i < |todo| && todo[i] in mem && Within(mem, todo[i], x)
  }

  /** The nodes still to be visited are there, and no two have anything below both. */
  ghost predicate Apart(mem: Mem, todo: seq<nat>) {
    && (forall i :: 0 <= i < |todo| ==> todo[i] in mem)
    && (forall i, j, x :: 0 <= i < j < |todo| && x in mem ==> !(Within(mem, todo[i], x) && Within(mem, todo[j], x)))
  }

  /** A data node has been visited exactly when it is no longer pending. */
  ghost predicate Accounted(mem: Mem, todo: seq<nat>, visited: seq<Mask>) {
    forall x :: x in mem && mem[x].data != 0
        ==> mem[x].bits <= 128 && (Pending(mem, todo, x) <==> MaskOf(mem[x].ip, mem[x].bits) !in visited)
  }

  /** Children in the order the stack holds them: the left one on top. */
  function Kids(n: Node): seq<nat> {
    (if n.r != 0 then [n.r] else []) + (if n.l != 0 then [n.l] else [])
  }

  lemma WithinItself(mem: Mem, root4: nat, root6: nat, x: nat)
    requires Ok(mem, root4, root6) && x in mem
    ensures Within(mem, x, x)
  {
    assert NodeOk(mem, root4, root6, x);
    AgreeAt(mem[x].ip, mem[x].ip, mem[x].bits);
  }

  /** Below a kid of n is below n, and is not n. */
  lemma KidWithin(mem: Mem, root4: nat, root6: nat, n: nat, k: nat, x: nat)
    requires Ok(mem, root4, root6) && n in mem && x in mem && k < |Kids(mem[n])|
    ensures Kids(mem[n])[k] in mem && (Within(mem, Kids(mem[n])[k], x) ==> Within(mem, n, x) && x != n)
  {
    if mem[n].l != 0 { ChildWithin(mem, root4, root6, n, false, x); }
    if mem[n].r != 0 { ChildWithin(mem, root4, root6, n, true, x); }
  }

  lemma KidsApart(mem: Mem, root4: nat, root6: nat, n: nat, x: nat)
    requires Ok(mem, root4, root6) && n in mem && x in mem && |Kids(mem[n])| == 2
    ensures Kids(mem[n])[0] in mem && Kids(mem[n])[1] in mem
    ensures !(Within(mem, Kids(mem[n])[0], x) && Within(mem, Kids(mem[n])[1], x))
  {
    ChildrenApart(mem, root4, root6, n, x);
  }

  lemma StepApart(mem: Mem, root4: nat, root6: nat, front: seq<nat>, n: nat)
    requires Ok(mem, root4, root6) && n in mem && Apart(mem, front + [n])
    ensures Apart(mem, front + Kids(mem[n]))
  {
    var todo, todo', kids := front + [n], front + Kids(mem[n]), Kids(mem[n]);
    forall i | 0 <= i < |todo'| ensures todo'[i] in mem {
      if i < |front| { assert todo[i] == front[i]; } else { KidWithin(mem, root4, root6, n, i - |front|, n); }
    }
    forall i, j, x | 0 <= i < j < |todo'| && x in mem ensures !(Within(mem, todo'[i], x) && Within(mem, todo'[j], x)) {
      if j < |front| {
        assert todo[i] == todo'[i] && todo[j] == todo'[j];
      } else {
        KidWithin(mem, root4, root6, n, j - |front|, x);
        if i < |front| {
          assert todo[i] == todo'[i] && todo[|front|] == n;
        } else {
          KidsApart(mem, root4, root6, n, x);
        }
      }
    }
  }

  /** Visiting n takes n, and only n, off what is pending. */
  lemma StepPending(mem: Mem, root4: nat, root6: nat, front: seq<nat>, n: nat, x: nat)
    requires Ok(mem, root4, root6) && n in mem && x in mem && Apart(mem, front + [n])
    ensures Pending(mem, front + Kids(mem[n]), x) <==> Pending(mem, front + [n], x) && x != n
  {
    var todo, todo', kids := front + [n], front + Kids(mem[n]), Kids(mem[n]);
    WithinItself(mem, root4, root6, n);
    assert todo[|front|] == n;
    if Pending(mem, todo', x) {
      var i :| 0 <= i < |todo'| && todo'[i] in mem && Within(mem, todo'[i], x);
      if i < |front| {
        assert todo[i] == todo'[i];
      } else {
        KidWithin(mem, root4, root6, n, i - |front|, x);
      }
    }
    if Pending(mem, todo, x) && x != n {
      var i :| 0 <= i < |todo| && todo[i] in mem && Within(mem, todo[i], x);
      if i < |front| {
        assert todo'[i] == todo[i];
      } else {
        WithinSplits(mem, root4, root6, n, x);
        var c := Child(mem[n], mem[x].ip[mem[n].bits]);
        var k :| 0 <= k < |kids| && kids[k] == c;
        assert todo'[|front| + k] == c;
      }
    }
  }

  function Noted(mem: Mem, n: nat, visited: seq<Mask>): seq<Mask>
    requires n in mem && mem[n].bits <= 128
  {
    if mem[n].data != 0 then visited + [MaskOf(mem[n].ip, mem[n].bits)] else visited
  }

  lemma OneNodePerMask(mem: Mem, root4: nat, root6: nat, x: nat, y: nat)
    requires Ok(mem, root4, root6) && x in mem && y in mem && mem[x].bits <= 128 && mem[y].bits <= 128
    requires MaskOf(mem[x].ip, mem[x].bits) == MaskOf(mem[y].ip, mem[y].bits)
    ensures x == y
  {
    SameMask(mem[x], mem[y].ip, mem[y].bits);
    AgreeAt(mem[y].ip, mem[y].ip, mem[y].bits);
    ExactIsExact(mem, root4, root6, mem[y].ip, mem[y].bits, x);
    ExactIsExact(mem, root4, root6, mem[y].ip, mem[y].bits, y);
  }

  lemma StepAccounted(mem: Mem, root4: nat, root6: nat, front: seq<nat>, n: nat, visited: seq<Mask>)
    requires Ok(mem, root4, root6) && n in mem && mem[n].bits <= 128
    requires Apart(mem, front + [n]) && Accounted(mem, front + [n], visited)
    ensures Accounted(mem, front + Kids(mem[n]), Noted(mem, n, visited))
    ensures mem[n].data != 0 ==> MaskOf(mem[n].ip, mem[n].bits) !in visited
  {
    WithinItself(mem, root4, root6, n);
    assert (front + [n])[|front|] == n;
    assert Pending(mem, front + [n], n);
    forall x | x in mem && mem[x].data != 0
      ensures mem[x].bits <= 128
      ensures Pending(mem, front + Kids(mem[n]), x) <==> MaskOf(mem[x].ip, mem[x].bits) !in Noted(mem, n, visited)
    {
      StepPending(mem, root4, root6, front, n, x);
      if MaskOf(mem[x].ip, mem[x].bits) == MaskOf(mem[n].ip, mem[n].bits) { OneNodePerMask(mem, root4, root6, x, n); }
    }
  }

  // ----- freeing cells that are not pending -----

  /** mem' is mem without some cells, and perhaps without some data. */
  ghost predicate Fewer(mem: Mem, mem': Mem) {
    forall x :: x in mem' ==> x in mem && mem'[x].ip == mem[x].ip && mem'[x].bits == mem[x].bits
                              && (mem'[x].data == mem[x].data || mem'[x].data == 0)
  }

  lemma FewerWithin(mem: Mem, mem': Mem, a: nat, x: nat)
    requires Fewer(mem, mem') && a in mem' && x in mem'
    ensures a in mem && x in mem && (Within(mem', a, x) <==> Within(mem, a, x))
  {
  }

  lemma FewerApart(mem: Mem, mem': Mem, todo: seq<nat>)
    requires Fewer(mem, mem') && Apart(mem, todo) && forall i :: 0 <= i < |todo| ==> todo[i] in mem'
    ensures Apart(mem', todo)
  {
    forall i, j, x | 0 <= i < j < |todo| && x in mem' ensures !(Within(mem', todo[i], x) && Within(mem', todo[j], x)) {
      FewerWithin(mem, mem', todo[i], x);
      FewerWithin(mem, mem', todo[j], x);
    }
  }

  lemma FewerPending(mem: Mem, mem': Mem, todo: seq<nat>, x: nat)
    requires Fewer(mem, mem') && x in mem' && forall i :: 0 <= i < |todo| ==> todo[i] in mem'
    ensures x in mem && (Pending(mem', todo, x) <==> Pending(mem, todo, x))
  {
    if Pending(mem', todo, x) {
      var i :| 0 <= i < |todo| && todo[i] in mem' && Within(mem', todo[i], x);
      FewerWithin(mem, mem', todo[i], x);
    }
    if Pending(mem, todo, x) {
      var i :| 0 <= i < |todo| && todo[i] in mem && Within(mem, todo[i], x);
      FewerWithin(mem, mem', todo[i], x);
    }
  }

  lemma FewerAccounted(mem: Mem, mem': Mem, todo: seq<nat>, visited: seq<Mask>)
    requires Fewer(mem, mem') && Accounted(mem, todo, visited) && forall i :: 0 <= i < |todo| ==> todo[i] in mem'
    ensures Accounted(mem', todo, visited)
  {
    forall x | x in mem' && mem'[x].data != 0
      ensures mem'[x].bits <= 128 && (Pending(mem', todo, x) <==> MaskOf(mem'[x].ip, mem'[x].bits) !in visited)
    {
      FewerPending(mem, mem', todo, x);
    }
  }

  /** Neither n nor its parent is among what is still to be visited after n. */
  lemma FreedNotPending(mem: Mem, root4: nat, root6: nat, front: seq<nat>, n: nat, i: nat)
    requires Ok(mem, root4, root6) && n in mem && Apart(mem, front + [n]) && i < |front + Kids(mem[n])|
    ensures (front + Kids(mem[n]))[i] != n && (mem[n].parent != 0 ==> (front + Kids(mem[n]))[i] != mem[n].parent)
  {
    var todo, y := front + [n], (front + Kids(mem[n]))[i];
    WithinItself(mem, root4, root6, n);
    assert todo[|front|] == n;
    if i < |front| {
      assert todo[i] == y;
      if mem[n].parent != 0 {
        var p := UpOne(mem, root4, root6, n);
        AgreeAt(mem[n].ip, mem[n].ip, mem[n].bits);
        AboveCovers(mem, root4, root6, p, n, mem[n].ip, mem[n].bits);
        assert Within(mem, p, n);
      }
    } else {
      KidWithin(mem, root4, root6, n, i - |front|, n);
      WithinItself(mem, root4, root6, y);
      KidWithin(mem, root4, root6, n, i - |front|, y);
      if mem[n].parent != 0 {
        var p := UpOne(mem, root4, root6, n);
        assert NodeOk(mem, root4, root6, n);
      }
    }
  }

  // ----- the stack -----

  /** `depths` records, for each stack entry, the length of the prefix it was
      pushed below.  Prefixes grow along a path, so the depths do too. */
  ghost predicate StackOk(mem: Mem, stack: seq<nat>, node: nat, depths: seq<nat>) {
    && |depths| == |stack|
    && (forall i :: 0 <= i < |stack| ==> stack[i] in mem && depths[i] < mem[stack[i]].bits && depths[i] < 128)
    && (forall i, j :: 0 <= i < j < |depths| ==> depths[i] < depths[j])
    && (node != 0 && |stack| > 0 ==> node in mem && depths[|depths| - 1] < mem[node].bits)
  }

  lemma {:induction false} DepthAtLeast(depths: seq<nat>, i: nat)
    requires i < |depths| && forall i, j :: 0 <= i < j < |depths| ==> depths[i] < depths[j]
    ensures i <= depths[i]
  {
    if i > 0 { DepthAtLeast(depths, i - 1); }
  }

  /** Never more than 128 entries, so the 129th slot is never needed. */
  lemma StackFits(mem: Mem, stack: seq<nat>, node: nat, depths: seq<nat>)
    requires StackOk(mem, stack, node, depths)
    ensures |stack| <= 128
  {
    if |stack| > 0 { DepthAtLeast(depths, |stack| - 1); }
  }

  lemma FewerStack(mem: Mem, mem': Mem, stack: seq<nat>, node: nat, depths: seq<nat>)
    requires StackOk(mem, stack, node, depths) && Fewer(mem, mem')
    requires forall i :: 0 <= i < |stack| ==> stack[i] in mem'
    requires node != 0 ==> node in mem'
    ensures StackOk(mem', stack, node, depths)
  {
  }

  /** What the macro's variables stand for: the IPv6 root if the IPv4 tree is
      not done, then the stack, then the current node. */
  function Todo(root6: nat, v4done: bool, stack: seq<nat>, node: nat): seq<nat> {
    (if v4done then [] else [root6]) + stack + (if node == 0 then [] else [node])
  }

  datatype Cursor = Cursor(v4done: bool, stack: seq<nat>, node: nat)

  /** The macro's choice of the next node. */
  function Advance(n: Node, root6: nat, at: Cursor): Cursor {
    if n.l != 0 then Cursor(at.v4done, if n.r != 0 then at.stack + [n.r] else at.stack, n.l)
    else if n.r != 0 then at.(node := n.r)
    else if at.stack != [] then Cursor(at.v4done, at.stack[..|at.stack| - 1], at.stack[|at.stack| - 1])
    else if !at.v4done then Cursor(true, [], root6)
    else Cursor(true, [], 0)
  }

  lemma AdvanceTodo(n: Node, root6: nat, at: Cursor)
    requires at.node != 0 && root6 != 0 && forall i :: 0 <= i < |at.stack| ==> at.stack[i] != 0
    ensures var to := Advance(n, root6, at);
            Todo(root6, to.v4done, to.stack, to.node) == Todo(root6, at.v4done, at.stack, 0) + Kids(n)
    ensures Todo(root6, at.v4done, at.stack, at.node) == Todo(root6, at.v4done, at.stack, 0) + [at.node]
  {
    var to := Advance(n, root6, at);
    if n.l == 0 && n.r == 0 && at.stack != [] {
      assert at.stack == to.stack + [to.node];
    }
  }

  lemma AdvanceStack(mem: Mem, root4: nat, root6: nat, at: Cursor, depths: seq<nat>) returns (depths': seq<nat>)
    requires Ok(mem, root4, root6) && at.node in mem && StackOk(mem, at.stack, at.node, depths)
    ensures var to := Advance(mem[at.node], root6, at); StackOk(mem, to.stack, to.node, depths')
  {
    assert NodeOk(mem, root4, root6, at.node);
    var n := mem[at.node];
    if n.l != 0 && n.r != 0 {
      depths' := depths + [n.bits];
    } else if n.l == 0 && n.r == 0 && at.stack != [] {
      depths' := depths[..|depths| - 1];
    } else {
      depths' := depths;
    }
  }

  // ----- the loop -----

  ghost predicate NoRepeats(s: seq<Mask>) {
    forall i, j :: 0 <= i < j < |s| ==> s[i] != s[j]
  }

  /** `visited` are entries of the map as it was, each once, and what has been
      dropped so far is what the caller wanted dropped and the loop has seen. */
  ghost predicate Ledger(contents: map<Mask, nat>, was: map<Mask, nat>, drop: set<Mask>, visited: seq<Mask>) {
    && NoRepeats(visited)
    && (forall k :: k in visited ==> k in was)
    && (forall k :: k in was <==> k in contents || (k in drop && k in visited))
    && (forall k :: k in contents ==> k in was && contents[k] == was[k])
    && (forall k :: k in contents && k in drop ==> k !in visited)
  }

  /** Where the loop stands. */
  ghost predicate Midway(mem: Mem, contents: map<Mask, nat>, was: map<Mask, nat>, drop: set<Mask>, todo: seq<nat>,
      visited: seq<Mask>) {
    Apart(mem, todo) && Accounted(mem, todo, visited) && Ledger(contents, was, drop, visited)
  }

  /** One more entry is seen, and dropped if it is to be. */
  lemma LedgerStep(contents: map<Mask, nat>, was: map<Mask, nat>, drop: set<Mask>, visited: seq<Mask>, k: Mask)
    requires Ledger(contents, was, drop, visited) && k in contents && k !in visited
    ensures Ledger(if k in drop then contents - {k} else contents, was, drop, visited + [k])
  {
  }

  lemma AllPending(mem: Mem, root4: nat, root6: nat, x: nat)
    requires Ok(mem, root4, root6) && x in mem
    ensures Pending(mem, [root6, root4], x) && mem[x].bits <= 128
  {
    EverythingBelowRoot(mem, root4, root6, x);
    assert [root6, root4][0] == root6 && [root6, root4][1] == root4;
  }

  lemma RootsApart(mem: Mem, root4: nat, root6: nat)
    requires Ok(mem, root4, root6)
    ensures Apart(mem, [root6, root4])
  {
  }

  lemma Start(mem: Mem, root4: nat, root6: nat, contents: map<Mask, nat>, drop: set<Mask>)
    requires Ok(mem, root4, root6)
    ensures Midway(mem, contents, contents, drop, [root6, root4], [])
  {
    RootsApart(mem, root4, root6);
    NoneVisited(mem, root4, root6);
    assert Ledger(contents, contents, drop, []);
  }

  lemma NoneVisited(mem: Mem, root4: nat, root6: nat)
    requires Ok(mem, root4, root6)
    ensures Accounted(mem, [root6, root4], [])
  {
    forall x | x in mem && mem[x].data != 0
      ensures mem[x].bits <= 128 && (Pending(mem, [root6, root4], x) <==> MaskOf(mem[x].ip, mem[x].bits) !in [])
    {
      AllPending(mem, root4, root6, x);
    }
  }

  lemma {:induction false} EverythingBelowRoot(mem: Mem, root4: nat, root6: nat, x: nat)
    requires Ok(mem, root4, root6) && x in mem
    ensures Within(mem, RootOf(root4, root6, mem[x].ip), x)
  {
    assert NodeOk(mem, root4, root6, x);
    RootAbove(mem, root4, root6, x);
    AgreeAt(mem[x].ip, mem[x].ip, mem[x].bits);
    AboveCovers(mem, root4, root6, RootOf(root4, root6, mem[x].ip), x, mem[x].ip, mem[x].bits);
  }

  lemma {:induction false} RootAbove(mem: Mem, root4: nat, root6: nat, x: nat)
    requires Ok(mem, root4, root6) && x in mem
    ensures Above(mem, root4, root6, RootOf(root4, root6, mem[x].ip), x)
    decreases mem[x].bits
  {
    assert NodeOk(mem, root4, root6, x);
    if mem[x].parent != 0 {
      var p := UpOne(mem, root4, root6, x);
      RootAbove(mem, root4, root6, p);
    }
  }

  /** Visiting n without removing it. */
  lemma Visit(mem: Mem, root4: nat, root6: nat, contents: map<Mask, nat>, was: map<Mask, nat>, drop: set<Mask>,
              front: seq<nat>, n: nat, visited: seq<Mask>)
    requires Ok(mem, root4, root6) && Represents(mem, contents) && n in mem && mem[n].bits <= 128
    requires Midway(mem, contents, was, drop, front + [n], visited)
    requires mem[n].data != 0 ==> MaskOf(mem[n].ip, mem[n].bits) !in drop
    ensures Midway(mem, contents, was, drop, front + Kids(mem[n]), Noted(mem, n, visited))
  {
    StepApart(mem, root4, root6, front, n);
    StepAccounted(mem, root4, root6, front, n, visited);
    if mem[n].data != 0 {
      assert Holds(contents, MaskOf(mem[n].ip, mem[n].bits), mem[n].data);
      LedgerStep(contents, was, drop, visited, MaskOf(mem[n].ip, mem[n].bits));
    }
  }

  /** What is still to be visited after n is not freed with n. */
  lemma StillThere(mem: Mem, mem': Mem, root4: nat, root6: nat, front: seq<nat>, n: nat)
    requires Ok(mem, root4, root6) && n in mem && Apart(mem, front + [n])
    requires mem'.Keys >= mem.Keys - {n} - {mem[n].parent}
    ensures forall i :: 0 <= i < |front + Kids(mem[n])| ==> (front + Kids(mem[n]))[i] in mem'
  {
    var todo' := front + Kids(mem[n]);
    StepApart(mem, root4, root6, front, n);
    forall i | 0 <= i < |todo'| ensures todo'[i] in mem' {
      FreedNotPending(mem, root4, root6, front, n, i);
      assert NodeOk(mem, root4, root6, n);
      assert todo'[i] in mem.Keys - {n} - {mem[n].parent};
    }
  }

  /** Visiting n and then removing it: `mem'` is what removal leaves. */
  lemma VisitAndRemove(mem: Mem, mem': Mem, root4: nat, root6: nat, contents: map<Mask, nat>, was: map<Mask, nat>,
                       drop: set<Mask>,
                       front: seq<nat>, n: nat, visited: seq<Mask>)
    requires Ok(mem, root4, root6) && Represents(mem, contents) && n in mem && mem[n].bits <= 128 && mem[n].data != 0
    requires Midway(mem, contents, was, drop, front + [n], visited) && MaskOf(mem[n].ip, mem[n].bits) in drop
    requires Fewer(mem, mem') && mem'.Keys >= mem.Keys - {n} - {mem[n].parent}
    ensures forall i :: 0 <= i < |front + Kids(mem[n])| ==> (front + Kids(mem[n]))[i] in mem'
    ensures Midway(mem', contents - {MaskOf(mem[n].ip, mem[n].bits)}, was, drop, front + Kids(mem[n]),
        Noted(mem, n, visited))
  {
    var todo' := front + Kids(mem[n]);
    StepApart(mem, root4, root6, front, n);
    StepAccounted(mem, root4, root6, front, n, visited);
    StillThere(mem, mem', root4, root6, front, n);
    FewerApart(mem, mem', todo');
    FewerAccounted(mem, mem', todo', Noted(mem, n, visited));
    assert Holds(contents, MaskOf(mem[n].ip, mem[n].bits), mem[n].data);
    LedgerStep(contents, was, drop, visited, MaskOf(mem[n].ip, mem[n].bits));
  }

  ghost function Rest(mem: Mem, todo: seq<nat>): set<nat> {
    set x | x in mem && Pending(mem, todo, x)
  }

  /** There is less left to do after a visit, whatever was freed. */
  lemma LessLeft(mem: Mem, mem': Mem, root4: nat, root6: nat, front: seq<nat>, n: nat)
    requires Ok(mem, root4, root6) && n in mem && Apart(mem, front + [n]) && Fewer(mem, mem')
    requires forall i :: 0 <= i < |front + Kids(mem[n])| ==> (front + Kids(mem[n]))[i] in mem'
    ensures Rest(mem', front + Kids(mem[n])) < Rest(mem, front + [n])
  {
    WithinItself(mem, root4, root6, n);
    assert (front + [n])[|front|] == n;
    assert n in Rest(mem, front + [n]);
    forall x | x in Rest(mem', front + Kids(mem[n])) ensures x in Rest(mem, front + [n]) && x != n {
      FewerPending(mem, mem', front + Kids(mem[n]), x);
      StepPending(mem, root4, root6, front, n, x);
    }
  }

  lemma Finished(mem: Mem, contents: map<Mask, nat>, was: map<Mask, nat>, drop: set<Mask>, visited: seq<Mask>)
    requires Represents(mem, contents) && Midway(mem, contents, was, drop, [], visited)
    ensures contents == was - drop && forall k :: k in visited <==> k in was
  {
    forall k | k in contents ensures k in visited {
      var n :| n in mem && Stores(mem[n], k);
      assert !Pending(mem, [], n);
    }
  }

  lemma FreesFewer(mem: Mem, mem': Mem, n: nat)
    requires n in mem && Frees(mem[n := mem[n].(data := 0)], mem')
    ensures Fewer(mem, mem')
  {
  }

  /** The loop's state, for a tree t and the macro's variables. */
  ghost predicate LoopOk(t: Tree, drop: set<Mask>, was: map<Mask, nat>, at: Cursor, visited: seq<Mask>,
      depths: seq<nat>)
    reads t
  {
    && t.Valid() && t.Tidy(0)
    && (at.node == 0 ==> at.stack == [] && at.v4done) && (at.node != 0 ==> at.node in t.mem)
    && StackOk(t.mem, at.stack, at.node, depths)
    && Midway(t.mem, t.contents, was, drop, Todo(t.root6, at.v4done, at.stack, at.node), visited)
  }

  /** The node that comes after `node`, chosen before the body runs. */
  method PickNext(n: Node, root6: nat, stack: array<nat>, sp: nat, v4done: bool, ghost node: nat)
    returns (next: nat, sp': nat, v4done': bool)
    requires stack.Length == 129 && sp <= 128
    modifies stack
    ensures sp' <= 129 && Cursor(v4done', stack[..sp'], next)
        == Advance(n, root6, Cursor(v4done, old(stack[..sp]), node))
  {
    next, sp', v4done' := 0, sp, v4done;
    if n.l != 0 {
      if n.r != 0 {
        stack[sp'] := n.r;
        sp' := sp' + 1;
      }
      next := n.l;
    } else if n.r != 0 {
      next := n.r;
    } else if sp' != 0 {
      sp' := sp' - 1;
      next := stack[sp'];
    } else if !v4done' {
      next, v4done' := root6, true;
    }
  }

  /** The loop's body at node n: it may remove it. */
  method Body(t: Tree, n: nat, drop: set<Mask>, ghost was: map<Mask, nat>, ghost front: seq<nat>,
      ghost visited: seq<Mask>)
    requires t.Valid() && t.Tidy(0) && n in t.mem && t.mem[n].bits <= 128
    requires Midway(t.mem, t.contents, was, drop, front + [n], visited)
    modifies t
    ensures t.Valid() && t.Tidy(0) && Fewer(old(t.mem), t.mem)
    ensures var todo := front + Kids(old(t.mem)[n]);
            && (forall i :: 0 <= i < |todo| ==> todo[i] in t.mem)
            && Midway(t.mem, t.contents, was, drop, todo, Noted(old(t.mem), n, visited))
  {
    var node := t.mem[n];
    ghost var mem0, contents0 := t.mem, t.contents;
    if node.data != 0 && MaskOf(node.ip, node.bits) in drop {
      Remove(t, n);
      VisitAndRemove(mem0, t.mem, t.root4, t.root6, contents0, was, drop, front, n, visited);
    } else {
      StepApart(t.mem, t.root4, t.root6, front, n);
      Visit(t.mem, t.root4, t.root6, t.contents, was, drop, front, n, visited);
    }
  }

  method Remove(t: Tree, n: nat)
    requires t.Valid() && t.Tidy(0) && n in t.mem && t.mem[n].bits <= 128 && t.mem[n].data != 0
    modifies t
    ensures t.Valid() && t.Tidy(0) && Fewer(old(t.mem), t.mem)
    ensures t.mem.Keys >= old(t.mem).Keys - {n} - {old(t.mem)[n].parent}
    ensures t.contents == old(t.contents) - {MaskOf(old(t.mem)[n].ip, old(t.mem)[n].bits)}
  {
    ghost var mem0 := t.mem;
    var _ := t.RemNode(n);
    FreesFewer(mem0, t.mem, n);
  }

  /** One turn of the loop: pick the next node, then run the body. */
  method Turn(t: Tree, stack: array<nat>, sp: nat, v4done: bool, node: nat, drop: set<Mask>, visited: seq<Mask>,
              ghost was: map<Mask, nat>, ghost depths: seq<nat>)
    returns (next: nat, sp': nat, v4done': bool, visited': seq<Mask>, ghost depths': seq<nat>)
    requires stack.Length == 129 && sp <= 128 && node != 0
    requires LoopOk(t, drop, was, Cursor(v4done, stack[..sp], node), visited, depths)
    modifies t, stack
    ensures sp' <= 128 && LoopOk(t, drop, was, Cursor(v4done', stack[..sp'], next), visited', depths')
    ensures Rest(t.mem, Todo(t.root6, v4done', stack[..sp'], next)) 
         < old(Rest(t.mem, Todo(t.root6, v4done, stack[..sp], node)))
  {
    ghost var mem0, at := t.mem, Cursor(v4done, stack[..sp], node);
    ghost var front := Todo(t.root6, v4done, stack[..sp], 0);
    var n := t.mem[node];
    depths' := NextOk(t.mem, t.root4, t.root6, at, depths);
    next, sp', v4done' := PickNext(n, t.root6, stack, sp, v4done, node);
    ghost var to := Cursor(v4done', stack[..sp'], next);
    StackFits(mem0, to.stack, next, depths');
    Body(t, node, drop, was, front, visited);
    visited' := if n.data != 0 then visited + [MaskOf(n.ip, n.bits)] else visited;
    LessLeft(mem0, t.mem, t.root4, t.root6, front, node);
    LoopKeeps(mem0, t.mem, t.root6, to, depths');
  }

  /** CIDR_ITER over `t` with a body that notes the node and removes it when its
      prefix is in `drop`. */
  method ForEach(t: Tree, drop: set<Mask>) returns (visited: seq<Mask>)
    requires t.Valid() && t.Tidy(0)
    modifies t
    ensures t.Valid() && t.Tidy(0)
    ensures NoRepeats(visited) && forall k :: k in visited <==> k in old(t.contents)
    ensures t.contents == old(t.contents) - drop
  {
    var stack := new nat[129];
    var sp: nat, v4done, node := 0, false, t.root4;
    ghost var depths: seq<nat> := [];
    visited := [];
    LoopStarts(t, drop);
    assert stack[..sp] == [];
    while node != 0
      invariant sp <= 128 && LoopOk(t, drop, old(t.contents), Cursor(v4done, stack[..sp], node), visited, depths)
      decreases Rest(t.mem, Todo(t.root6, v4done, stack[..sp], node))
    {
      node, sp, v4done, visited, depths := Turn(t, stack, sp, v4done, node, drop, visited, old(t.contents), depths);
    }
    LoopEnds(t, drop, old(t.contents), Cursor(v4done, stack[..sp], node), visited, depths);
  }

  lemma LoopStarts(t: Tree, drop: set<Mask>)
    requires t.Valid() && t.Tidy(0)
    ensures LoopOk(t, drop, t.contents, Cursor(false, [], t.root4), [], [])
  {
    Start(t.mem, t.root4, t.root6, t.contents, drop);
    assert Todo(t.root6, false, [], t.root4) == [t.root6, t.root4];
  }

  lemma LoopEnds(t: Tree, drop: set<Mask>, was: map<Mask, nat>, at: Cursor, visited: seq<Mask>, depths: seq<nat>)
    requires LoopOk(t, drop, was, at, visited, depths) && at.node == 0
    ensures NoRepeats(visited) && (forall k :: k in visited <==> k in was) && t.contents == was - drop
  {
    assert Todo(t.root6, at.v4done, at.stack, at.node) == [];
    Finished(t.mem, t.contents, was, drop, visited);
  }

  lemma NextOk(mem: Mem, root4: nat, root6: nat, at: Cursor, depths: seq<nat>) returns (depths': seq<nat>)
    requires Ok(mem, root4, root6) && at.node in mem && StackOk(mem, at.stack, at.node, depths)
    ensures var to := Advance(mem[at.node], root6, at);
            && StackOk(mem, to.stack, to.node, depths')
            && Todo(root6, to.v4done, to.stack, to.node) == Todo(root6, at.v4done, at.stack, 0) + Kids(mem[at.node])
            && (to.node == 0 ==> to.stack == [] && to.v4done)
    ensures Todo(root6, at.v4done, at.stack, at.node) == Todo(root6, at.v4done, at.stack, 0) + [at.node]
    ensures mem[at.node].bits <= 128
  {
    assert NodeOk(mem, root4, root6, at.node);
    AdvanceTodo(mem[at.node], root6, at);
    depths' := AdvanceStack(mem, root4, root6, at, depths);
  }

  lemma LoopKeeps(mem: Mem, mem': Mem, root6: nat, to: Cursor, depths: seq<nat>)
    requires StackOk(mem, to.stack, to.node, depths) && Fewer(mem, mem')
    requires var todo := Todo(root6, to.v4done, to.stack, to.node); forall i :: 0 <= i < |todo| ==> todo[i] in mem'
    ensures StackOk(mem', to.stack, to.node, depths) && (to.node != 0 ==> to.node in mem')
  {
    var todo := Todo(root6, to.v4done, to.stack, to.node);
    var skip := if to.v4done then 0 else 1;
    forall i | 0 <= i < |to.stack| ensures to.stack[i] in mem' { assert todo[skip + i] == to.stack[i]; }
    if to.node != 0 { assert todo[|todo| - 1] == to.node; }
    FewerStack(mem, mem', to.stack, to.node, depths);
  }
}
