/**
 * The hooks attached to one hook point: kept in order of priority and then of
 * registration, run until one decides, and safe for the hooks themselves to
 * change while being run.
 */
module HooksChain {
  import opened Hooks

  // `serial` is how many hooks were registered before this one.
  datatype Hook = Hook(serial: nat, mod: nat, fn: nat, priority: int, dead: bool)

  predicate Earlier(a: Hook, b: Hook) {
    a.priority < b.priority || (a.priority == b.priority && a.serial < b.serial)
  }

  ghost predicate Ordered(chain: seq<Hook>) {
    forall i, j :: 0 <= i < j < |chain| ==> Earlier(chain[i], chain[j])
  }

  function Live(chain: seq<Hook>): nat {
    if chain == [] then 0 else (if chain[0].dead then 0 else 1) + Live(chain[1..])
  }

  lemma {:induction false} LiveBoth(a: seq<Hook>, b: seq<Hook>)
    ensures Live(a + b) == Live(a) + Live(b)
  {
    if a == [] {
      assert a + b == b;
    } else {
      LiveBoth(a[1..], b);
      assert (a + b)[1..] == a[1..] + b;
    }
  }

  lemma LiveMiddle(a: seq<Hook>, h: Hook, b: seq<Hook>)
    ensures Live(a + [h] + b) == Live(a) + (if h.dead then 0 else 1) + Live(b)
  {
    LiveBoth(a + [h], b);
    LiveBoth(a, [h]);
    assert Live([h]) == (if h.dead then 0 else 1) + Live([h][1..]);
  }

  // Only those still alive.
  function Reaped(chain: seq<Hook>): seq<Hook> {
    if chain == [] then []
    else if chain[0].dead then Reaped(chain[1..])
    else [chain[0]] + Reaped(chain[1..])
  }

  lemma {:induction false} ReapedIs(chain: seq<Hook>)
    requires Ordered(chain)
    ensures Ordered(Reaped(chain)) && Live(Reaped(chain)) == Live(chain) == |Reaped(chain)|
    ensures forall h :: h in Reaped(chain) <==> h in chain && !h.dead
  {
    if chain != [] {
      ReapedIs(chain[1..]);
      var r := Reaped(chain[1..]);
      assert forall h :: h in chain <==> h == chain[0] || h in chain[1..];
      if !chain[0].dead {
        assert ([chain[0]] + r)[1..] == r;
        forall j | 0 <= j < |r| ensures Earlier(chain[0], r[j]) {
          assert r[j] in chain[1..];
        }
      }
    }
  }

  // ----- Who decides --------------------------------------------------------

  // An answer to hold on is no decision where nothing can be held.
  function Verdict(answers: map<nat, Result>, h: Hook): Result {
    if h.dead || h.fn !in answers || answers[h.fn] == Pending then Continue else answers[h.fn]
  }

  ghost predicate Decides(chain: seq<Hook>, answers: map<nat, Result>, h: Hook) {
    && h in chain && Verdict(answers, h) != Continue
    && forall g :: g in chain && Earlier(g, h) ==> Verdict(answers, g) == Continue
  }

  // ----- Changes made while a chain is run ----------------------------------

  datatype Change = DoAdd(mod: nat, fn: nat, priority: int) | DoDel(mod: nat, fn: nat) | DoDelModule(mod: nat)

  datatype Turn = Turn(changes: seq<Change>, result: Result)

  // What the k-th hook called gives; an answer to hold on counts for nothing.
  function ResultOf(script: seq<Turn>, k: nat): Result {
    if k >= |script| || script[k].result == Pending then Continue else script[k].result
  }

  ghost predicate AllContinue(script: seq<Turn>, called: seq<Hook>) {
    forall k :: 0 <= k < |called| ==> ResultOf(script, k) == Continue
  }

  // The same node, dead or alive.
  predicate Same(h: Hook, g: Hook) { g == h.(dead := g.dead) }

  // While a run is under way nodes stay where they are: one may be marked as
  // dead, never brought back, and new ones have new serials.
  ghost predicate Evolves(was: seq<Hook>, now: seq<Hook>, n: nat) {
    && (forall h :: h in was ==> h in now || h.(dead := true) in now)
    && (forall g :: g in now ==> g in was || (g.dead && g.(dead := false) in was) || g.serial >= n)
  }

  lemma EvolvesTwice(a: seq<Hook>, b: seq<Hook>, c: seq<Hook>, n: nat, m: nat)
    requires Evolves(a, b, n) && Evolves(b, c, m) && n <= m
    ensures Evolves(a, c, n)
  {
  }

  lemma EvolvesSame(was: seq<Hook>, now: seq<Hook>, n: nat, h: Hook)
    requires Evolves(was, now, n) && h in was
    ensures exists j :: 0 <= j < |now| && Same(h, now[j])
  {
    var g := if h in now then h else h.(dead := true);
    var j :| 0 <= j < |now| && now[j] == g;
  }

  // Half-way through a run: those called so far are in order and before what is
  // left, and of those there were at the start each was called, or is dead, or
  // is still to come.
  ghost predicate Halfway(start: seq<Hook>, chain: seq<Hook>, called: seq<Hook>, i: nat)
    requires i <= |chain|
  {
    && Ordered(called)
    && (forall k, j :: 0 <= k < |called| && i <= j < |chain| ==> Earlier(called[k], chain[j]))
    && (forall h :: h in start && !h.dead ==> h in called || h.(dead := true) in chain || h in chain[i..])
  }

  // Each hook called was in the chain, and alive, when it was.
  ghost predicate Logged(called: seq<Hook>, at: seq<seq<Hook>>) {
    |at| == |called| && forall k :: 0 <= k < |called| ==> called[k] in at[k] && !called[k].dead
  }

  lemma LoggedNext(called: seq<Hook>, at: seq<seq<Hook>>, chain: seq<Hook>, h: Hook)
    requires Logged(called, at) && h in chain && !h.dead
    ensures Logged(called + [h], at + [chain])
  {
  }

  lemma HalfwayOn(start: seq<Hook>, chain: seq<Hook>, called: seq<Hook>, i: nat)
    requires i < |chain| && chain[i].dead && Halfway(start, chain, called, i)
    ensures Halfway(start, chain, called, i + 1)
  {
    assert chain[i..] == [chain[i]] + chain[i + 1..];
  }

  lemma HalfwayCall(start: seq<Hook>, chain: seq<Hook>, called: seq<Hook>, i: nat)
    requires i < |chain| && Ordered(chain) && called != [] && called[|called| - 1] == chain[i]
    requires Halfway(start, chain, called[..|called| - 1], i)
    ensures Halfway(start, chain, called, i + 1)
  {
    var n := |called| - 1;
    assert chain[i..] == [chain[i]] + chain[i + 1..];
    assert forall k :: 0 <= k < n ==> called[k] == called[..n][k];
    forall h | h in start && !h.dead ensures h in called || h.(dead := true) in chain || h in chain[i + 1..] {
      if h in called[..n] { assert h in called; }
    }
  }

  // In an ordered chain a node is before another by its place.
  lemma PlaceOf(chain: seq<Hook>, i: nat, j: nat)
    requires Ordered(chain) && i < |chain| && j < |chain|
    ensures Earlier(chain[i], chain[j]) <==> i < j
  {
  }

  lemma HalfwayChanged(start: seq<Hook>, was: seq<Hook>, now: seq<Hook>, called: seq<Hook>, h: Hook, i: nat, n: nat)
    requires Ordered(was) && Ordered(now) && Evolves(was, now, n) && i < |now| && Same(h, now[i])
    requires called != [] && called[|called| - 1] == h && Ordered(called)
    requires exists j :: 0 <= j < |was| && was[j] == h && Halfway(start, was, called, j + 1)
    ensures Halfway(start, now, called, i + 1)
  {
    var j :| 0 <= j < |was| && was[j] == h && Halfway(start, was, called, j + 1);
    forall k, m | 0 <= k < |called| && i + 1 <= m < |now| ensures Earlier(called[k], now[m]) {
      assert Earlier(now[i], now[m]);
      assert k < |called| - 1 ==> Earlier(called[k], h);
    }
    forall g | g in start && !g.dead ensures g in called || g.(dead := true) in now || g in now[i + 1..] {
      if g in was[j + 1..] {
        var x :| j + 1 <= x < |was| && was[x] == g;
        assert Earlier(h, g);
        if g in now {
          var y :| 0 <= y < |now| && now[y] == g;
          PlaceOf(now, i, y);
          assert now[i + 1..][y - i - 1] == g;
        }
      } else if g.(dead := true) in was {
        assert g.(dead := true) in now;
      }
    }
  }

  // There at the start, and there and alive at the end.
  ghost predicate Stayed(start: seq<Hook>, chain: seq<Hook>, h: Hook) {
    h in start && h in chain && !h.dead
  }

  // Nobody decided, or not before it was h's turn.
  ghost predicate Reached(called: seq<Hook>, result: Result, h: Hook) {
    result == Continue || (called != [] && Earlier(h, called[|called| - 1]))
  }

  // At the end, whoever was there all along and alive was called.
  lemma HalfwayEnds(start: seq<Hook>, chain: seq<Hook>, called: seq<Hook>, i: nat, result: Result)
    requires Ordered(chain) && i <= |chain|
    requires if result == Continue then i == |chain| && Halfway(start, chain, called, i)
             else
               && i < |chain| && called != [] && Same(called[|called| - 1], chain[i])
               && Halfway(start, chain, called, i + 1)
    ensures forall h :: Stayed(start, chain, h) && Reached(called, result, h) ==> h in called
  {
    forall h | Stayed(start, chain, h) && Reached(called, result, h) ensures h in called {
      var x :| 0 <= x < |chain| && chain[x] == h;
      if h.(dead := true) in chain {
        var y :| 0 <= y < |chain| && chain[y] == h.(dead := true);
        PlaceOf(chain, x, y);
        PlaceOf(chain, y, x);
        assert false;
      }
      if result != Continue { PlaceOf(chain, x, i); }
    }
  }

  class Point {
    var chain: seq<Hook>
    var count: nat
    var depth: nat       // how many runs, of any hook point, are under way
    var reap: bool
    var added: nat

    ghost predicate Valid()
      reads this
    {
      && Ordered(chain)
      && count == Live(chain)
      && (forall h :: h in chain ==> h.serial < added)
      && ((exists h :: h in chain && h.dead) ==> reap && depth > 0)
    }

    constructor ()
      ensures Valid() && chain == [] && depth == 0
    {
      chain, count, depth, reap, added := [], 0, 0, false, 0;
    }

    // Lower priorities first, and among equals the one registered first.
    method Add(mod: nat, fn: nat, priority: int)
      requires Valid()
      modifies this
      ensures Valid() && depth == old(depth) && added == old(added) + 1
      ensures forall h :: h in chain <==> h in old(chain) || h == Hook(old(added), mod, fn, priority, false)
    {
      var h := Hook(added, mod, fn, priority, false);
      var i := 0;
      while i < |chain| && chain[i].priority <= priority
        invariant i <= |chain|
        invariant forall j :: 0 <= j < i ==> chain[j].priority <= priority
      {
        i := i + 1;
      }
      Insertion(chain, i, h);
      chain := chain[..i] + [h] + chain[i..];
      count := count + 1;
      added := added + 1;
    }

    // Gone at once, unless a run is under way: it may be standing on the node,
    // so then the node is only marked.
    method Take(i: nat)
      requires Valid() && i < |chain| && !chain[i].dead
      modifies this
      ensures Valid() && depth == old(depth) && added == old(added)
      ensures Removed(old(chain), i, old(chain)[i].mod, old(chain)[i].fn, depth, chain)
      ensures forall h :: h in chain && !h.dead <==> h in old(chain) && !h.dead && h != old(chain)[i]
    {
      Removal(chain, i);
      count := count - 1;
      if depth > 0 {
        chain := chain[i := chain[i].(dead := true)];
        reap := true;
      } else {
        chain := chain[..i] + chain[i + 1..];
      }
    }

    // The first live hook of a module with this function.
    method Del(mod: nat, fn: nat) returns (found: bool)
      requires Valid()
      modifies this
      ensures Valid() && depth == old(depth) && added == old(added)
      ensures found == exists h :: h in old(chain) && h.mod == mod && h.fn == fn && !h.dead
      ensures !found ==> chain == old(chain)
      ensures found ==> exists i :: 0 <= i < |old(chain)| && Removed(old(chain), i, mod, fn, depth, chain)
    {
      var i := 0;
      while i < |chain| && !(chain[i].mod == mod && chain[i].fn == fn && !chain[i].dead)
        invariant i <= |chain|
        invariant forall j :: 0 <= j < i ==> !(chain[j].mod == mod && chain[j].fn == fn && !chain[j].dead)
      {
        i := i + 1;
      }
      if i == |chain| {
        return false;
      }
      assert chain[i] in chain;
      Take(i);
      assert Removed(old(chain), i, mod, fn, depth, chain);
      return true;
    }

    // Everything a module attached.
    method DelModule(mod: nat)
      requires Valid()
      modifies this
      ensures Valid() && depth == old(depth) && added == old(added)
      ensures forall h :: h in chain && !h.dead <==> h in old(chain) && !h.dead && h.mod != mod
      ensures depth > 0 ==> Marked(old(chain), chain, mod, |chain|)
    {
      var i := 0;
      ghost var before := chain;
      while i < |chain|
        invariant i <= |chain| && Valid() && depth == old(depth) && added == old(added)
        invariant forall j :: 0 <= j < i ==> chain[j].mod == mod ==> chain[j].dead
        invariant forall h :: h in chain && !h.dead ==> h in before
        invariant forall h :: h in before && !h.dead && h.mod != mod ==> h in chain
        invariant depth > 0 ==> Marked(before, chain, mod, i)
        decreases |chain| - i
      {
        if chain[i].mod != mod || chain[i].dead {
          i := i + 1;
        } else {
          Take(i);
          if depth > 0 {
            i := i + 1;
          }
        }
      }
    }

    // One change, made from inside a hook.
    method Change(c: Change)
      requires Valid() && depth > 0
      modifies this
      ensures Valid() && depth == old(depth) && added >= old(added) && Evolves(old(chain), chain, old(added))
    {
      match c
      case DoAdd(mod, fn, priority) => Add(mod, fn, priority);
      case DoDel(mod, fn) => var _ := Del(mod, fn);
      case DoDelModule(mod) => DelModule(mod);
    }

    method Changes(cs: seq<Change>)
      requires Valid() && depth > 0
      modifies this
      ensures Valid() && depth == old(depth) && added >= old(added) && Evolves(old(chain), chain, old(added))
    {
      for i := 0 to |cs|
        invariant Valid() && depth == old(depth) && added >= old(added) && Evolves(old(chain), chain, old(added))
      {
        ghost var was, n := chain, added;
        Change(cs[i]);
        EvolvesTwice(old(chain), was, chain, old(added), n);
      }
    }

    // Where the run is standing, after the chain has changed around it.
    method Stand(h: Hook) returns (i: nat)
      requires exists j :: 0 <= j < |chain| && Same(h, chain[j])
      ensures i < |chain| && Same(h, chain[i])
    {
      i := 0;
      while !(chain[i].serial == h.serial && chain[i].priority == h.priority && chain[i].mod == h.mod
          && chain[i].fn == h.fn)
        invariant i < |chain| && exists j :: i <= j < |chain| && Same(h, chain[j])
        decreases |chain| - i
      {
        i := i + 1;
      }
    }

    // The hook at i is called, as the k-th: it may change the chain, and the run
    // goes on from wherever its node then is.
    method CallOne(script: seq<Turn>, k: nat, i: nat, ghost start: seq<Hook>, ghost called: seq<Hook>) returns (j: nat)
      requires Valid() && depth > 0 && i < |chain| && called != [] && called[|called| - 1] == chain[i]
      requires Halfway(start, chain, called, i + 1)
      modifies this
      ensures Valid() && depth == old(depth)
      ensures j < |chain| && Same(old(chain)[i], chain[j]) && Halfway(start, chain, called, j + 1)
      ensures k >= |script| ==> chain == old(chain) && j == i
    {
      if k >= |script| {
        return i;
      }
      var h := chain[i];
      Changes(script[k].changes);
      EvolvesSame(old(chain), chain, old(added), h);
      j := Stand(h);
      HalfwayChanged(start, old(chain), chain, called, h, j, old(added));
    }

    // Run until somebody decides, with hooks that change the chain while it is
    // being run: the k-th hook called makes the changes of `script[k]` and gives
    // its result. `called` is who was called, in order, and `at` what the chain
    // was at each call.
    method RunChanging(script: seq<Turn>) returns (result: Result, called: seq<Hook>, ghost at: seq<seq<Hook>>)
      requires Valid()
      modifies this
      ensures Valid() && depth == old(depth)
      ensures Ordered(called) && Logged(called, at)
      ensures forall k :: 0 <= k < |called| - 1 ==> ResultOf(script, k) == Continue
      ensures if called == [] then result == Continue else result == ResultOf(script, |called| - 1)
      ensures forall h :: Stayed(old(chain), chain, h) && Reached(called, result, h) ==> h in called
    {
      depth := depth + 1;
      result, called, at := Walk(script);
      Leave();
    }

    // The walk along the chain that a run is.
    method Walk(script: seq<Turn>) returns (result: Result, called: seq<Hook>, ghost at: seq<seq<Hook>>)
      requires Valid() && depth > 0
      modifies this
      ensures Valid() && depth == old(depth)
      ensures Ordered(called) && Logged(called, at)
      ensures forall k :: 0 <= k < |called| - 1 ==> ResultOf(script, k) == Continue
      ensures if called == [] then result == Continue else result == ResultOf(script, |called| - 1)
      ensures forall h :: Stayed(old(chain), chain, h) && Reached(called, result, h) ==> h in called
    {
      result, called, at := Continue, [], [];
      ghost var start := chain;
      var i: nat := 0;
      while i < |chain|
        invariant Valid() && depth == old(depth) && i <= |chain| && result == Continue
        invariant Logged(called, at) && Halfway(start, chain, called, i) && AllContinue(script, called)
        decreases if |called| < |script| then |script| - |called| else 0, |chain| - i
      {
        if chain[i].dead {
          HalfwayOn(start, chain, called, i);
        } else {
          i, called, at := Visit(script, i, start, called, at);
          result := ResultOf(script, |called| - 1);
          if result != Continue {
            break;
          }
        }
        i := i + 1;
      }
      HalfwayEnds(start, chain, called, i, result);
    }

    // The hook at i is called and entered on the list of those who were.
    method Visit(script: seq<Turn>, i: nat, ghost start: seq<Hook>, was: seq<Hook>, ghost before: seq<seq<Hook>>)
        returns (j: nat, called: seq<Hook>, ghost at: seq<seq<Hook>>)
      requires Valid() && depth > 0 && i < |chain| && !chain[i].dead
      requires Logged(was, before) && Halfway(start, chain, was, i)
      modifies this
      ensures Valid() && depth == old(depth) && called == was + [old(chain)[i]] && Logged(called, at)
      ensures j < |chain| && Same(called[|called| - 1], chain[j]) && Halfway(start, chain, called, j + 1)
      ensures |called| > |script| ==> chain == old(chain) && j == i
    {
      LoggedNext(was, before, chain, chain[i]);
      called, at := was + [chain[i]], before + [chain];
      HalfwayCall(start, chain, called, i);
      j := CallOne(script, |called| - 1, i, start, called);
    }

    // Run until somebody decides, with hooks that change nothing while run.
    method Run(answers: map<nat, Result>) returns (result: Result)
      requires Valid()
      modifies this
      ensures Valid() && depth == old(depth)
      ensures forall h :: h in chain && !h.dead <==> h in old(chain) && !h.dead
      ensures result == Continue ==> forall h :: h in old(chain) ==> Verdict(answers, h) == Continue
      ensures result != Continue ==> exists h :: Decides(old(chain), answers, h) && Verdict(answers, h) == result
    {
      depth := depth + 1;
      result := Continue;
      var i := 0;
      while i < |chain|
        invariant i <= |chain| && chain == old(chain) && result == Continue
        invariant forall j :: 0 <= j < i ==> Verdict(answers, chain[j]) == Continue
      {
        result := Verdict(answers, chain[i]);
        if result != Continue {
          Decider(chain, answers, i);
          break;
        }
        i := i + 1;
      }
      Leave();
    }

    // A run is over; the last one out clears away the dead.
    method Leave()
      requires Valid() && depth > 0
      modifies this
      ensures Valid() && depth == old(depth) - 1
      ensures forall h :: h in chain && !h.dead <==> h in old(chain) && !h.dead
    {
      depth := depth - 1;
      if depth == 0 {
        Reap();
      }
    }

    method Reap()
      requires Ordered(chain) && count == Live(chain) && depth == 0
      requires forall h :: h in chain ==> h.serial < added
      requires (exists h :: h in chain && h.dead) ==> reap
      modifies this
      ensures Valid() && depth == old(depth) && !reap
      ensures forall h :: h in chain <==> h in old(chain) && !h.dead
    {
      if reap {
        ReapedIs(chain);
        chain := Reaped(chain);
      }
      reap := false;
    }
  }

  lemma Insertion(chain: seq<Hook>, i: nat, h: Hook)
    requires Ordered(chain) && i <= |chain| && !h.dead
    requires forall j :: 0 <= j < i ==> chain[j].priority <= h.priority
    requires i < |chain| ==> chain[i].priority > h.priority
    requires forall g :: g in chain ==> g.serial < h.serial
    ensures var c := chain[..i] + [h] + chain[i..];
            Ordered(c) && Live(c) == Live(chain) + 1 && forall g :: g in c <==> g in chain || g == h
  {
    InsertedLive(chain, i, h);
    InsertedIn(chain, i, h);
    assert Fits(chain, i, h) by {
      forall j | 0 <= j < i ensures Earlier(chain[j], h) {
        assert chain[j] in chain;
      }
      forall j | i <= j < |chain| ensures Earlier(h, chain[j]) {
        assert j == i || Earlier(chain[i], chain[j]);
      }
    }
    InsertedOrdered(chain, i, h);
  }

  lemma InsertedLive(chain: seq<Hook>, i: nat, h: Hook)
    requires i <= |chain| && !h.dead
    ensures Live(chain[..i] + [h] + chain[i..]) == Live(chain) + 1
  {
    assert chain == chain[..i] + chain[i..];
    LiveBoth(chain[..i], chain[i..]);
    LiveMiddle(chain[..i], h, chain[i..]);
  }

  lemma InsertedIn(chain: seq<Hook>, i: nat, h: Hook)
    requires i <= |chain|
    ensures forall g :: g in chain[..i] + [h] + chain[i..] <==> g in chain || g == h
  {
    assert chain == chain[..i] + chain[i..];
  }

  // h belongs at i.
  ghost predicate Fits(chain: seq<Hook>, i: nat, h: Hook)
    requires i <= |chain|
  {
    && (forall j :: 0 <= j < i ==> Earlier(chain[j], h))
    && (forall j :: i <= j < |chain| ==> Earlier(h, chain[j]))
  }

  lemma InsertedOrdered(chain: seq<Hook>, i: nat, h: Hook)
    requires Ordered(chain) && i <= |chain| && Fits(chain, i, h)
    ensures Ordered(chain[..i] + [h] + chain[i..])
  {
    var c := chain[..i] + [h] + chain[i..];
    forall j, k | 0 <= j < k < |c| ensures Earlier(c[j], c[k]) {
      var x := if j < i then j else if j == i then |chain| else j - 1;
      assert j != i ==> c[j] == chain[x];
      assert k != i ==> c[k] == chain[if k < i then k else k - 1];
    }
  }

  lemma RemovalLive(chain: seq<Hook>, i: nat)
    requires i < |chain| && !chain[i].dead
    ensures Live(chain[..i] + chain[i + 1..]) + 1 == Live(chain)
    ensures Live(chain[i := chain[i].(dead := true)]) + 1 == Live(chain)
  {
    var a, h, b := chain[..i], chain[i], chain[i + 1..];
    assert chain == a + [h] + b && chain[i := h.(dead := true)] == a + [h.(dead := true)] + b;
    LiveMiddle(a, h, b);
    LiveMiddle(a, h.(dead := true), b);
    LiveBoth(a, b);
  }

  lemma RemovalOrdered(chain: seq<Hook>, i: nat)
    requires Ordered(chain) && i < |chain|
    ensures Ordered(chain[..i] + chain[i + 1..]) && Ordered(chain[i := chain[i].(dead := true)])
  {
    var c := chain[..i] + chain[i + 1..];
    assert forall j :: 0 <= j < |c| ==> c[j] == chain[if j < i then j else j + 1];
  }

  lemma RemovalMembers(chain: seq<Hook>, i: nat)
    requires Ordered(chain) && i < |chain|
    ensures forall h :: h in chain[..i] + chain[i + 1..] <==> h in chain && h != chain[i]
    ensures forall h ::
        h in chain[i := chain[i].(dead := true)] <==> (h in chain && h != chain[i]) || h == chain[i].(dead := true)
  {
    var c, marked := chain[..i] + chain[i + 1..], chain[i := chain[i].(dead := true)];
    assert forall j :: 0 <= j < |c| ==> c[j] == chain[if j < i then j else j + 1];
    forall g | g in chain && g != chain[i] ensures g in c && g in marked {
      var j :| 0 <= j < |chain| && chain[j] == g;
      assert c[if j < i then j else j - 1] == g && marked[j] == g;
    }
    assert marked[i] == chain[i].(dead := true);
  }

  // What taking the i-th hook out does, or marking it.
  lemma Removal(chain: seq<Hook>, i: nat)
    requires Ordered(chain) && i < |chain| && !chain[i].dead
    ensures Live(chain[..i] + chain[i + 1..]) + 1 == Live(chain)
    ensures Live(chain[i := chain[i].(dead := true)]) + 1 == Live(chain)
    ensures Ordered(chain[..i] + chain[i + 1..]) && Ordered(chain[i := chain[i].(dead := true)])
    ensures forall h :: h in chain[..i] + chain[i + 1..] <==> h in chain && h != chain[i]
    ensures forall h ::
        h in chain[i := chain[i].(dead := true)] <==> (h in chain && h != chain[i]) || h == chain[i].(dead := true)
  {
    RemovalLive(chain, i);
    RemovalOrdered(chain, i);
    RemovalMembers(chain, i);
  }

  ghost predicate Removed(was: seq<Hook>, i: nat, mod: nat, fn: nat, depth: nat, now: seq<Hook>)
    requires i < |was|
  {
    && was[i].mod == mod && was[i].fn == fn && !was[i].dead
    && now == if depth > 0 then was[i := was[i].(dead := true)] else was[..i] + was[i + 1..]
  }

  // The same nodes, those of a module among the first k marked as dead.
  ghost predicate Marked(was: seq<Hook>, now: seq<Hook>, mod: nat, k: nat) {
    && |now| == |was|
    && forall i :: 0 <= i < |was| ==> now[i] == if i < k && was[i].mod == mod then was[i].(dead := true) else was[i]
  }

  // The hook that decides is one nobody before it in order would have.
  lemma Decider(chain: seq<Hook>, answers: map<nat, Result>, i: nat)
    requires Ordered(chain) && i < |chain| && Verdict(answers, chain[i]) != Continue
    requires forall j :: 0 <= j < i ==> Verdict(answers, chain[j]) == Continue
    ensures Decides(chain, answers, chain[i])
  {
    assert forall j :: i <= j < |chain| ==> !Earlier(chain[j], chain[i]);
    forall g | g in chain && Earlier(g, chain[i]) ensures Verdict(answers, g) == Continue {
      var j :| 0 <= j < |chain| && chain[j] == g;
    }
  }

  // Only one hook can be the one that decides: the outcome does not depend on
  // anything but the priorities and the order of registration.
  lemma OneDecider(chain: seq<Hook>, answers: map<nat, Result>, g: Hook, h: Hook)
    requires Ordered(chain) && Decides(chain, answers, g) && Decides(chain, answers, h)
    ensures g == h
  {
    var i :| 0 <= i < |chain| && chain[i] == g;
    var j :| 0 <= j < |chain| && chain[j] == h;
    assert i < j ==> Earlier(g, h);
    assert j < i ==> Earlier(h, g);
  }
}
