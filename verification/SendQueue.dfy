/**
 * A connection's send queue: two lists of lines, and in what order a client
 * receives what was queued. Lines are known by their number in the order they
 * were queued in.
 */
module SendQueue {
  // Those whose first byte has been written, and those waiting in each list.
  datatype Queue = Queue(got: seq<nat>, prio: seq<nat>, norm: seq<nat>)

  const Empty := Queue([], [], [])

  function Add(q: Queue, k: nat, prio: bool): Queue {
    if prio then q.(prio := q.prio + [k]) else q.(norm := q.norm + [k])
  }

  // The next line is begun. One begun is finished before another is.
  function Begin(q: Queue): Queue {
    if q.prio != [] then Queue(q.got + [q.prio[0]], q.prio[1..], q.norm)
    else if q.norm != [] then Queue(q.got + [q.norm[0]], [], q.norm[1..])
    else q
  }

  function BeginMany(q: Queue, n: nat): Queue
    decreases n
  {
    if n == 0 then q else BeginMany(Begin(q), n - 1)
  }

  lemma {:induction false} BeginTwice(q: Queue, m: nat, n: nat)
    ensures BeginMany(BeginMany(q, m), n) == BeginMany(q, m + n)
    decreases m
  {
    if m > 0 {
      BeginTwice(Begin(q), m - 1, n);
    }
  }

  // What is queued, in order, with how many lines are begun after each.
  datatype Step = Step(prio: bool, begun: nat)

  function After(steps: seq<Step>): Queue {
    if steps == [] then Empty
    else
      var n := |steps| - 1;
      BeginMany(Add(After(steps[..n]), n, steps[n].prio), steps[n].begun)
  }

  // Settled: nothing that is queued later comes before these.
  function Ahead(q: Queue): seq<nat> { q.got + q.prio }

  // The order in which all of it is received.
  function Order(q: Queue): seq<nat> { Ahead(q) + q.norm }

  lemma BeginOrder(q: Queue)
    ensures Order(Begin(q)) == Order(q) && Ahead(q) <= Ahead(Begin(q))
  {
  }

  lemma BeginHigh(q: Queue)
    requires q.prio != []
    ensures Ahead(Begin(q)) == Ahead(q) && Begin(q).norm == q.norm && Begin(q).prio == q.prio[1..]
  {
    assert q.prio == [q.prio[0]] + q.prio[1..];
  }

  lemma BeginLow(q: Queue)
    requires q.prio == [] && q.norm != []
    ensures Begin(q) == Queue(q.got + [q.norm[0]], [], q.norm[1..]) && Ahead(Begin(q)) == Ahead(q) + [q.norm[0]]
  {
  }

  lemma {:induction false} BeginManyOrder(q: Queue, n: nat)
    ensures Order(BeginMany(q, n)) == Order(q) && Ahead(q) <= Ahead(BeginMany(q, n))
    decreases n
  {
    if n > 0 {
      BeginOrder(q);
      BeginManyOrder(Begin(q), n - 1);
    }
  }

  lemma AddOrder(q: Queue, k: nat, prio: bool)
    ensures Ahead(Add(q, k, prio)) == Ahead(q) + (if prio then [k] else [])
    ensures Order(Add(q, k, prio)) == if prio then Ahead(q) + [k] + q.norm else Order(q) + [k]
  {
  }

  // ----- Every line once ----------------------------------------------------

  ghost predicate Permutes(order: seq<nat>, n: nat) {
    && |order| == n
    && (forall p :: 0 <= p < n ==> order[p] < n)
    && (forall p, q :: 0 <= p < q < n ==> order[p] != order[q])
    && forall k :: 0 <= k < n ==> k in order
  }

  lemma Inserted(a: seq<nat>, b: seq<nat>, n: nat)
    requires Permutes(a + b, n)
    ensures Permutes(a + [n] + b, n + 1)
  {
    var old_, new_, m := a + b, a + [n] + b, |a|;
    assert forall p :: 0 <= p < |new_| && p != m ==> new_[p] == old_[if p < m then p else p - 1];
    forall k | 0 <= k < n + 1 ensures k in new_ {
      if k < n {
        assert k in old_;
        var p :| 0 <= p < n && old_[p] == k;
        assert new_[if p < m then p else p + 1] == k;
      } else {
        assert new_[m] == n;
      }
    }
  }

  lemma {:induction false} EachOnce(steps: seq<Step>)
    ensures Permutes(Order(After(steps)), |steps|)
    decreases |steps|
  {
    if steps != [] {
      EachOnce(steps[..|steps| - 1]);
      LastStep(steps);
      Inserted(Front(steps), Back(steps), |steps| - 1);
    }
  }

  // ----- Who overtakes whom -------------------------------------------------

  ghost predicate Precedes(order: seq<nat>, a: nat, b: nat) {
    exists p, q :: 0 <= p < q < |order| && order[p] == a && order[q] == b
  }

  // j, queued after i, goes ahead of it: it has priority and i, which has not,
  // is still waiting.
  ghost predicate Overtakes(steps: seq<Step>, j: nat, i: nat)
    requires i < j < |steps|
  {
    steps[j].prio && i in After(steps[..j]).norm
  }

  // Where what was at p is once something is put in at m.
  function Moved(p: nat, m: nat): nat { if p < m then p else p + 1 }

  lemma StillPrecedes(a: seq<nat>, b: seq<nat>, n: nat, x: nat, y: nat)
    requires Precedes(a + b, x, y)
    ensures Precedes(a + [n] + b, x, y)
  {
    var old_, new_, m := a + b, a + [n] + b, |a|;
    var p, q :| 0 <= p < q < |old_| && old_[p] == x && old_[q] == y;
    assert new_[Moved(p, m)] == old_[p] && new_[Moved(q, m)] == old_[q];
  }

  lemma PrecedesWithin(order: seq<nat>, n: nat, a: seq<nat>, b: seq<nat>, x: nat)
    requires Permutes(order, n) && order == a + [x] + b
    ensures forall y :: y in b ==> Precedes(order, x, y)
    ensures forall y :: y in a ==> Precedes(order, y, x)
  {
    assert order[|a|] == x;
    forall y | y in b ensures Precedes(order, x, y) {
      var p :| 0 <= p < |b| && b[p] == y;
      assert order[|a| + 1 + p] == y;
    }
    forall y | y in a ensures Precedes(order, y, x) {
      var p :| 0 <= p < |a| && a[p] == y;
      assert order[p] == y;
    }
  }

  // Where the last line goes.
  function Front(steps: seq<Step>): seq<nat>
    requires steps != []
  {
    var n := |steps| - 1;
    var q := After(steps[..n]);
    if steps[n].prio then Ahead(q) else Order(q)
  }

  function Back(steps: seq<Step>): seq<nat>
    requires steps != []
  {
    var n := |steps| - 1;
    if steps[n].prio then After(steps[..n]).norm else []
  }

  lemma LastStep(steps: seq<Step>)
    requires steps != []
    ensures Order(After(steps[..|steps| - 1])) == Front(steps) + Back(steps)
    ensures Order(After(steps)) == Front(steps) + [|steps| - 1] + Back(steps)
  {
    var n := |steps| - 1;
    var q := After(steps[..n]);
    AddOrder(q, n, steps[n].prio);
    BeginManyOrder(Add(q, n, steps[n].prio), steps[n].begun);
  }

  // Of two lines the one queued first is received first, unless it is
  // overtaken.
  lemma {:induction false} OvertakesIff(steps: seq<Step>, i: nat, j: nat)
    requires i < j < |steps|
    ensures Precedes(Order(After(steps)), j, i) <==> Overtakes(steps, j, i)
    ensures Precedes(Order(After(steps)), i, j) <==> !Overtakes(steps, j, i)
    decreases |steps|
  {
    EachOnce(steps);
    if j < |steps| - 1 {
      OvertakesIff(steps[..|steps| - 1], i, j);
      StillOvertakes(steps, i, j);
    } else {
      LastIs(steps, i);
    }
    OneOrOther(Order(After(steps)), |steps|, i, j);
  }

  lemma StillOvertakes(steps: seq<Step>, i: nat, j: nat)
    requires i < j < |steps| - 1
    ensures var before := steps[..|steps| - 1];
            && (Overtakes(before, j, i) <==> Overtakes(steps, j, i))
            && (Precedes(Order(After(before)), j, i) ==> Precedes(Order(After(steps)), j, i))
            && (Precedes(Order(After(before)), i, j) ==> Precedes(Order(After(steps)), i, j))
  {
    var n := |steps| - 1;
    LastStep(steps);
    assert steps[..n][..j] == steps[..j];
    if Precedes(Order(After(steps[..n])), j, i) { StillPrecedes(Front(steps), Back(steps), n, j, i); }
    if Precedes(Order(After(steps[..n])), i, j) { StillPrecedes(Front(steps), Back(steps), n, i, j); }
  }

  lemma LastIs(steps: seq<Step>, i: nat)
    requires i < |steps| - 1
    ensures Overtakes(steps, |steps| - 1, i) ==> Precedes(Order(After(steps)), |steps| - 1, i)
    ensures !Overtakes(steps, |steps| - 1, i) ==> Precedes(Order(After(steps)), i, |steps| - 1)
  {
    var n := |steps| - 1;
    LastStep(steps);
    EachOnce(steps[..n]);
    EachOnce(steps);
    PrecedesWithin(Order(After(steps)), |steps|, Front(steps), Back(steps), n);
    assert i in Front(steps) + Back(steps);
  }

  lemma OneOrOther(order: seq<nat>, n: nat, i: nat, j: nat)
    requires Permutes(order, n) && i < n && j < n && i != j
    ensures Precedes(order, i, j) <==> !Precedes(order, j, i)
  {
    assert i in order && j in order;
    var p :| 0 <= p < n && order[p] == i;
    var q :| 0 <= q < n && order[q] == j;
  }
}
