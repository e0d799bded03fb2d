/**
 * Batches as they are received: a line with priority goes ahead of those still
 * queued, and so may come out before the batch it says it is in, or after it.
 */
module BatchReceipt {
  import opened Options
  import opened Batch
  import opened BatchLabels
  import opened BatchNesting
  import Q = SendQueue

  // ----- What a client receives ---------------------------------------------

  // The lines queued for a client, with how many are begun after each.
  function Steps(ls: seq<Line>, begun: seq<nat>): seq<Q.Step>
    requires |begun| == |ls|
  {
    seq(|ls|, i requires 0 <= i < |ls| => Q.Step(Prio(ls[i]), begun[i]))
  }

  // The queue when the first k lines have been queued.
  function QueueAt(ls: seq<Line>, begun: seq<nat>, k: nat): Q.Queue
    requires |begun| == |ls| && k <= |ls|
  {
    Q.After(Steps(ls, begun)[..k])
  }

  function Pick(ls: seq<Line>, ns: seq<nat>): seq<Line> {
    if ns == [] then []
    else
      var n := ns[|ns| - 1];
      Pick(ls, ns[..|ns| - 1]) + (if n < |ls| then [ls[n]] else [])
  }

  function Received(ls: seq<Line>, begun: seq<nat>): seq<Line>
    requires |begun| == |ls|
  {
    Pick(ls, Q.Order(QueueAt(ls, begun, |ls|)))
  }

  lemma {:induction false} PickBoth(ls: seq<Line>, a: seq<nat>, b: seq<nat>)
    ensures Pick(ls, a + b) == Pick(ls, a) + Pick(ls, b)
    decreases |b|
  {
    if b == [] {
      assert a + b == a;
    } else {
      var m := |b| - 1;
      PickBoth(ls, a, b[..m]);
      assert (a + b)[..|a| + m] == a + b[..m] && (a + b)[|a| + m] == b[m];
    }
  }

  lemma PickOne(ls: seq<Line>, n: nat)
    requires n < |ls|
    ensures Pick(ls, [n]) == [ls[n]]
  {
    assert [n][..0] == [];
  }

  // ----- Reading on from somewhere ------------------------------------------

  function Walk(n: Option<Nesting>, ls: seq<Line>): Option<Nesting> {
    if ls == [] then n
    else
      match Walk(n, ls[..|ls| - 1])
      case None => None
      case Some(m) => Enter(m, ls[|ls| - 1])
  }

  lemma {:induction false} WalkBoth(n: Option<Nesting>, a: seq<Line>, b: seq<Line>)
    ensures Walk(n, a + b) == Walk(Walk(n, a), b)
    decreases |b|
  {
    if b == [] {
      assert a + b == a;
    } else {
      var m := |b| - 1;
      WalkBoth(n, a, b[..m]);
      assert (a + b)[..|a| + m] == a + b[..m] && (a + b)[|a| + m] == b[m];
    }
  }

  lemma {:induction false} NestIsWalk(ls: seq<Line>)
    ensures Nest(ls) == Walk(Some(Outside), ls)
  {
    if ls != [] {
      NestIsWalk(ls[..|ls| - 1]);
    }
  }

  lemma {:induction false} LostForGood(ls: seq<Line>)
    ensures Walk(None, ls) == None
  {
    if ls != [] {
      LostForGood(ls[..|ls| - 1]);
    }
  }

  lemma NestBoth(a: seq<Line>, b: seq<Line>)
    ensures Nest(a + b) == Walk(Nest(a), b)
    ensures Nest(a).None? ==> Nest(a + b).None?
  {
    NestIsWalk(a + b);
    NestIsWalk(a);
    WalkBoth(Some(Outside), a, b);
    LostForGood(b);
  }

  // The batches around a line, read backwards from those after it.
  function Undo(n: Nesting, l: Line): Nesting {
    match l.what
    case Open(_, _) => if n.Inside? then n.outer else n
    case Close(id) => Inside(id, n)
    case _ => n
  }

  function Undone(n: Nesting, ls: seq<Line>): Nesting
    decreases |ls|
  {
    if ls == [] then n else Undone(Undo(n, ls[|ls| - 1]), ls[..|ls| - 1])
  }

  lemma {:induction false} UndoneIs(m: Nesting, ls: seq<Line>, n: Nesting)
    requires Walk(Some(m), ls) == Some(n)
    ensures Undone(n, ls) == m
    decreases |ls|
  {
    if ls != [] {
      var k := |ls| - 1;
      UndoneIs(m, ls[..k], Walk(Some(m), ls[..k]).value);
    }
  }

  // ----- Nesting ------------------------------------------------------------

  // The batches that are open where the queue begins, which is where a line
  // with priority comes out: what is open after everything queued, undone.
  function FrontOf(ls: seq<Line>, begun: seq<nat>, j: nat): Nesting
    requires |begun| == |ls| && j < |ls|
  {
    match Nest(Normal(ls[..j]))
    case None => Outside
    case Some(n) => Undone(n, Pick(ls, QueueAt(ls, begun, j).norm))
  }

  ghost predicate CalmTo(ls: seq<Line>, begun: seq<nat>, k: nat)
    requires |begun| == |ls| && k <= |ls|
  {
    forall j :: 0 <= j < k && Prio(ls[j]) ==> ls[j].batch == Top(FrontOf(ls, begun, j))
  }

  // Every line with priority is in the batch that is open where it comes out.
  ghost predicate Calm(ls: seq<Line>, begun: seq<nat>)
    requires |begun| == |ls|
  {
    CalmTo(ls, begun, |ls|)
  }

  // What is certain about the first k lines, however the rest are queued.
  ghost predicate NestsAs(ls: seq<Line>, q: Q.Queue, calm: bool, n: Option<Nesting>) {
    var ahead, all := Nest(Pick(ls, Q.Ahead(q))), Nest(Pick(ls, Q.Order(q)));
    && (all.Some? ==> all == n)
    && (n.Some? && calm ==> all == n && ahead.Some?)
    && (n.Some? && !calm ==> ahead.None?)
  }

  lemma QueueNext(ls: seq<Line>, begun: seq<nat>, k: nat)
    requires |begun| == |ls| && k < |ls|
    ensures QueueAt(ls, begun, k + 1) == Q.BeginMany(Q.Add(QueueAt(ls, begun, k), k, Prio(ls[k])), begun[k])
  {
    var steps := Steps(ls, begun);
    assert steps[..k + 1][..k] == steps[..k];
  }

  // Lines begun change nothing in the order, and can only add to what is fixed.
  lemma BegunNests(ls: seq<Line>, q: Q.Queue, m: nat, calm: bool, n: Option<Nesting>)
    requires NestsAs(ls, q, calm, n)
    ensures NestsAs(ls, Q.BeginMany(q, m), calm, n)
  {
    var t := Q.BeginMany(q, m);
    Q.BeginManyOrder(q, m);
    var more := Q.Ahead(t)[|Q.Ahead(q)|..];
    assert Q.Ahead(t) == Q.Ahead(q) + more;
    PickBoth(ls, Q.Ahead(q), more);
    NestBoth(Pick(ls, Q.Ahead(q)), Pick(ls, more));
    PickBoth(ls, Q.Ahead(t), t.norm);
    NestBoth(Pick(ls, Q.Ahead(t)), Pick(ls, t.norm));
  }

  // A line with priority, put in after what is fixed.
  lemma HighNests(a: seq<Line>, b: seq<Line>, l: Line)
    requires l.what.Plain?
    ensures Nest(a + [l] + b).Some? ==> Nest(a + [l] + b) == Nest(a + b)
    ensures Nest(a).Some? && l.batch == Top(Nest(a).value) ==> Nest(a + [l]).Some? && Nest(a + [l] + b) == Nest(a + b)
    ensures Nest(a).Some? && l.batch != Top(Nest(a).value) ==> Nest(a + [l]).None?
    ensures Nest(a).None? ==> Nest(a + [l]).None?
  {
    Next(a, l);
    NestBoth(a + [l], b);
    NestBoth(a, b);
    LostForGood(b);
  }

  lemma HighAdded(ls: seq<Line>, q: Q.Queue, k: nat, calm: bool, n: Option<Nesting>, fits: bool)
    requires NestsAs(ls, q, calm, n) && k < |ls| && ls[k].what.Plain?
    requires n.Some? ==> (fits <==> ls[k].batch == Top(Undone(n.value, Pick(ls, q.norm))))
    ensures NestsAs(ls, Q.Add(q, k, true), calm && fits, n)
  {
    var a, b := Pick(ls, Q.Ahead(q)), Pick(ls, q.norm);
    Q.AddOrder(q, k, true);
    PickOne(ls, k);
    PickBoth(ls, Q.Ahead(q), [k]);
    PickBoth(ls, Q.Ahead(q) + [k], q.norm);
    PickBoth(ls, Q.Ahead(q), q.norm);
    NestBoth(a, b);
    HighNests(a, b, ls[k]);
    if n.Some? && calm {
      UndoneIs(Nest(a).value, b, n.value);
    }
  }

  lemma LowAdded(ls: seq<Line>, q: Q.Queue, k: nat, calm: bool, n: Option<Nesting>)
    requires NestsAs(ls, q, calm, n) && k < |ls|
    ensures NestsAs(ls, Q.Add(q, k, false), calm, if n.Some? then Enter(n.value, ls[k]) else None)
  {
    Q.AddOrder(q, k, false);
    PickOne(ls, k);
    PickBoth(ls, Q.Order(q), [k]);
    Next(Pick(ls, Q.Order(q)), ls[k]);
  }

  lemma NormalNext(ls: seq<Line>, k: nat)
    requires k < |ls|
    ensures Normal(ls[..k + 1]) == Normal(ls[..k]) + (if Prio(ls[k]) then [] else [ls[k]])
  {
    assert ls[..k + 1][..k] == ls[..k];
  }

  ghost predicate NestsAt(ls: seq<Line>, begun: seq<nat>, k: nat)
    requires |begun| == |ls| && k <= |ls|
  {
    NestsAs(ls, QueueAt(ls, begun, k), CalmTo(ls, begun, k), Nest(Normal(ls[..k])))
  }

  lemma NestsHigh(ls: seq<Line>, begun: seq<nat>, j: nat)
    requires |begun| == |ls| && j < |ls| && Prio(ls[j]) && NestsAt(ls, begun, j)
    ensures NestsAt(ls, begun, j + 1)
  {
    var q, calm, n := QueueAt(ls, begun, j), CalmTo(ls, begun, j), Nest(Normal(ls[..j]));
    var fits := ls[j].batch == Top(FrontOf(ls, begun, j));
    HighAdded(ls, q, j, calm, n, fits);
    BegunNests(ls, Q.Add(q, j, true), begun[j], calm && fits, n);
    QueueNext(ls, begun, j);
    NormalNext(ls, j);
    assert Normal(ls[..j + 1]) == Normal(ls[..j]);
    assert CalmTo(ls, begun, j + 1) <==> calm && fits;
  }

  lemma NestsLow(ls: seq<Line>, begun: seq<nat>, j: nat)
    requires |begun| == |ls| && j < |ls| && !Prio(ls[j]) && NestsAt(ls, begun, j)
    ensures NestsAt(ls, begun, j + 1)
  {
    var q, calm, n := QueueAt(ls, begun, j), CalmTo(ls, begun, j), Nest(Normal(ls[..j]));
    LowAdded(ls, q, j, calm, n);
    NormalNext(ls, j);
    Next(Normal(ls[..j]), ls[j]);
    BegunNests(ls, Q.Add(q, j, false), begun[j], calm, Nest(Normal(ls[..j + 1])));
    QueueNext(ls, begun, j);
    assert CalmTo(ls, begun, j + 1) <==> calm;
  }

  lemma NestsAtStart(ls: seq<Line>, begun: seq<nat>)
    requires |begun| == |ls|
    ensures NestsAt(ls, begun, 0)
  {
    assert Pick(ls, Q.Order(Q.Empty)) == [] && Pick(ls, Q.Ahead(Q.Empty)) == [];
  }

  lemma NestsNext(ls: seq<Line>, begun: seq<nat>, j: nat)
    requires |begun| == |ls| && j < |ls| && NestsAt(ls, begun, j)
    ensures NestsAt(ls, begun, j + 1)
  {
    if Prio(ls[j]) { NestsHigh(ls, begun, j); } else { NestsLow(ls, begun, j); }
  }

  lemma {:induction false} NestsTo(ls: seq<Line>, begun: seq<nat>, j: nat, k: nat)
    requires |begun| == |ls| && j <= k <= |ls| && NestsAt(ls, begun, j)
    ensures NestsAt(ls, begun, k)
    decreases k - j
  {
    if j < k {
      NestsNext(ls, begun, j);
      NestsTo(ls, begun, j + 1, k);
    }
  }

  // What a client receives is well nested if and only if the lines without
  // priority are, and each line with it is in the batch that is open where it
  // comes out.
  lemma ReceivedNestsIff(ls: seq<Line>, begun: seq<nat>)
    requires |begun| == |ls|
    ensures WellNested(Received(ls, begun)) <==> WellNested(Normal(ls)) && Calm(ls, begun)
  {
    NestsAtStart(ls, begun);
    NestsTo(ls, begun, 0, |ls|);
    assert ls[..|ls|] == ls;
    var q := QueueAt(ls, begun, |ls|);
    PickBoth(ls, Q.Ahead(q), q.norm);
    NestBoth(Pick(ls, Q.Ahead(q)), Pick(ls, q.norm));
  }

  // Where no batch line is queued the batch open is the one open after it all.
  lemma {:induction false} UndoneNothing(n: Nesting, ls: seq<Line>)
    requires forall l :: l in ls ==> !l.what.Open? && !l.what.Close?
    ensures Undone(n, ls) == n
    decreases |ls|
  {
    if ls != [] {
      assert ls[|ls| - 1] in ls;
      UndoneNothing(n, ls[..|ls| - 1]);
    }
  }

  // No line that opens or closes a batch waits when a line with priority is
  // queued.
  ghost predicate NoFrameWaits(ls: seq<Line>, begun: seq<nat>)
    requires |begun| == |ls|
  {
    forall j, l :: 0 <= j < |ls| && Prio(ls[j]) && l in Pick(ls, QueueAt(ls, begun, j).norm) ==>
      !l.what.Open? && !l.what.Close?
  }

  // Then all that matters is that it is in the innermost batch.
  lemma CalmIff(ls: seq<Line>, begun: seq<nat>)
    requires |begun| == |ls| && NoFrameWaits(ls, begun) && forall j :: 0 <= j <= |ls| ==> Nest(Normal(ls[..j])).Some?
    ensures Calm(ls, begun) <==>
              forall j :: 0 <= j < |ls| && Prio(ls[j]) ==> ls[j].batch == Top(Nest(Normal(ls[..j])).value)
  {
    forall j | 0 <= j < |ls| && Prio(ls[j]) ensures FrontOf(ls, begun, j) == Nest(Normal(ls[..j])).value {
      UndoneNothing(Nest(Normal(ls[..j])).value, Pick(ls, QueueAt(ls, begun, j).norm));
    }
  }

  // ----- Of commands --------------------------------------------------------

  // Over any commands that close the batches they open, what a client receives
  // is well nested if and only if nothing was told it elsewhere than where it
  // knows it is, and every line with priority comes out in its own batch.
  lemma ServeReceivedIff(s: State, cmds: seq<Cmd>, d: nat, begun: seq<nat>)
    requires Fresh(s) && Tidy(s, cmds) && |begun| == |Lines(Serve(s, cmds).wire, d)|
    ensures var ls := Lines(Serve(s, cmds).wire, d);
            WellNested(Received(ls, begun)) <==> FineServe(s, cmds, d) && Calm(ls, begun)
  {
    ServeNestsIff(s, cmds, d);
    ReceivedNestsIff(Lines(Serve(s, cmds).wire, d), begun);
  }

  lemma CommandReceivedIff(s: State, c: nat, text: string, acts: seq<Act>, d: nat, begun: seq<nat>, ok: bool)
    requires Follows(s, d, ok, false) && Idle(s) && |begun| == |Lines(Command(s, c, text, acts).wire, d)|
    ensures var ls, s1 := Lines(Command(s, c, text, acts).wire, d), LabelBegin(s, c, text);
            WellNested(Received(ls, begun)) <==>
              ok && FineActs(s1, acts, d) && OutTag(DoAll(s1, acts), d).None? && Calm(ls, begun)
  {
    CommandNestsIff(s, c, text, acts, d, ok);
    ReceivedNestsIff(Lines(Command(s, c, text, acts).wire, d), begun);
  }

  // ----- Told before it is used ---------------------------------------------

  predicate Opens(l: Line, id: nat) { l.what.Open? && l.what.id == id }

  // Every line that names a batch comes after one that opens it.
  ghost predicate Told(ls: seq<Line>) {
    forall p :: 0 <= p < |ls| && ls[p].batch.Some? ==> exists q :: 0 <= q < p && Opens(ls[q], ls[p].batch.value)
  }

  // The j-th line goes ahead of the i-th, which was queued before.
  predicate Overtakes(ls: seq<Line>, begun: seq<nat>, j: nat, i: nat)
    requires |begun| == |ls| && j < |ls|
  {
    Prio(ls[j]) && i in QueueAt(ls, begun, j).norm
  }

  function OrderOf(ls: seq<Line>, begun: seq<nat>): seq<nat>
    requires |begun| == |ls|
  {
    Q.Order(QueueAt(ls, begun, |ls|))
  }

  lemma {:induction false} PickAt(ls: seq<Line>, ns: seq<nat>)
    requires forall p :: 0 <= p < |ns| ==> ns[p] < |ls|
    ensures |Pick(ls, ns)| == |ns| && forall p :: 0 <= p < |ns| ==> Pick(ls, ns)[p] == ls[ns[p]]
    decreases |ns|
  {
    if ns != [] {
      PickAt(ls, ns[..|ns| - 1]);
    }
  }

  lemma OrderIs(ls: seq<Line>, begun: seq<nat>)
    requires |begun| == |ls|
    ensures Q.Permutes(OrderOf(ls, begun), |ls|)
    ensures |Received(ls, begun)| == |ls|
    ensures forall p :: 0 <= p < |ls| ==> Received(ls, begun)[p] == ls[OrderOf(ls, begun)[p]]
  {
    var steps := Steps(ls, begun);
    assert steps[..|ls|] == steps;
    Q.EachOnce(steps);
    PickAt(ls, OrderOf(ls, begun));
  }

  lemma FirstUnlessOvertaken(ls: seq<Line>, begun: seq<nat>, i: nat, j: nat)
    requires |begun| == |ls| && i < j < |ls|
    ensures Q.Precedes(OrderOf(ls, begun), i, j) <==> !Overtakes(ls, begun, j, i)
    ensures Q.Precedes(OrderOf(ls, begun), j, i) <==> Overtakes(ls, begun, j, i)
  {
    var steps := Steps(ls, begun);
    assert steps[..|ls|] == steps;
    Q.OvertakesIff(steps, i, j);
  }

  // The line that opens its batch was queued before it, and is not overtaken.
  ghost predicate InTime(ls: seq<Line>, begun: seq<nat>, j: nat)
    requires |begun| == |ls| && j < |ls| && ls[j].batch.Some?
  {
    exists i :: 0 <= i < j && Opens(ls[i], ls[j].batch.value) && !Overtakes(ls, begun, j, i)
  }

  lemma ToldIfInTime(ls: seq<Line>, begun: seq<nat>, p: nat)
    requires |begun| == |ls| && p < |ls| && Q.Permutes(OrderOf(ls, begun), |ls|)
    requires ls[OrderOf(ls, begun)[p]].batch.Some? && InTime(ls, begun, OrderOf(ls, begun)[p])
    ensures exists q :: 0 <= q < p && Opens(ls[OrderOf(ls, begun)[q]], ls[OrderOf(ls, begun)[p]].batch.value)
  {
    var order := OrderOf(ls, begun);
    var i :| 0 <= i < order[p] && Opens(ls[i], ls[order[p]].batch.value) && !Overtakes(ls, begun, order[p], i);
    FirstUnlessOvertaken(ls, begun, i, order[p]);
    var q, p' :| 0 <= q < p' < |order| && order[q] == i && order[p'] == order[p];
    assert p' == p;
  }

  lemma InTimeIfTold(ls: seq<Line>, begun: seq<nat>, j: nat, p: nat, q: nat)
    requires |begun| == |ls| && j < |ls| && ls[j].batch.Some? && Q.Permutes(OrderOf(ls, begun), |ls|)
    requires q < p < |ls| && OrderOf(ls, begun)[p] == j && Opens(ls[OrderOf(ls, begun)[q]], ls[j].batch.value)
    ensures InTime(ls, begun, j)
  {
    var order := OrderOf(ls, begun);
    var i := order[q];
    assert Q.Precedes(order, i, j);
    if i < j {
      FirstUnlessOvertaken(ls, begun, i, j);
    } else {
      FirstUnlessOvertaken(ls, begun, j, i);
      assert false;
    }
  }

  // Every line a client receives that names a batch comes after the line that
  // opens it, if and only if none goes ahead of that line.
  lemma ToldIff(ls: seq<Line>, begun: seq<nat>)
    requires |begun| == |ls|
    ensures Told(Received(ls, begun)) <==> forall j :: 0 <= j < |ls| && ls[j].batch.Some? ==> InTime(ls, begun, j)
  {
    OrderIs(ls, begun);
    var order, got := OrderOf(ls, begun), Received(ls, begun);
    if Told(got) {
      forall j | 0 <= j < |ls| && ls[j].batch.Some? ensures InTime(ls, begun, j) {
        assert j in order;
        var p :| 0 <= p < |order| && order[p] == j;
        var q :| 0 <= q < p && Opens(got[q], got[p].batch.value);
        InTimeIfTold(ls, begun, j, p, q);
      }
    }
    if forall j :: 0 <= j < |ls| && ls[j].batch.Some? ==> InTime(ls, begun, j) {
      forall p | 0 <= p < |got| && got[p].batch.Some?
        ensures exists q :: 0 <= q < p && Opens(got[q], got[p].batch.value)
      {
        ToldIfInTime(ls, begun, p);
        var q :| 0 <= q < p && Opens(ls[order[q]], ls[order[p]].batch.value);
        assert got[q] == ls[order[q]];
      }
    }
  }

  // ----- One labeled line, first --------------------------------------------

  // Of what is received, what was queued from the n-th line on.
  function Since(order: seq<nat>, n: nat): seq<nat> {
    if order == [] then []
    else
      var k := order[|order| - 1];
      Since(order[..|order| - 1], n) + (if k >= n then [k] else [])
  }

  lemma {:induction false} SinceIs(order: seq<nat>, n: nat, x: nat, y: nat)
    ensures x in Since(order, n) <==> x in order && x >= n
    ensures Q.Precedes(Since(order, n), x, y) ==> Q.Precedes(order, x, y)
    decreases |order|
  {
    if order != [] {
      var m := |order| - 1;
      var front, since := order[..m], Since(order[..m], n);
      SinceIs(front, n, x, y);
      assert order == front + [order[m]];
      if Q.Precedes(Since(order, n), x, y) {
        if Q.Precedes(since, x, y) {
          var p, q :| 0 <= p < q < |front| && front[p] == x && front[q] == y;
          assert order[p] == x && order[q] == y;
        } else {
          assert y == order[m] && x in since;
          var p :| 0 <= p < |front| && front[p] == x;
          assert order[p] == x;
        }
      }
    }
  }

  // What the client receives for a labeled command.
  function Answer(ls: seq<Line>, begun: seq<nat>, n: nat): seq<Line>
    requires |begun| == |ls|
  {
    Pick(ls, Since(OrderOf(ls, begun), n))
  }

  // r has the numbers from n to m, in the order they have in `order`.
  ghost predicate Keeps(order: seq<nat>, r: seq<nat>, n: nat, m: nat) {
    && (forall k: nat :: n <= k < m ==> k in r)
    && (forall p :: 0 <= p < |r| ==> n <= r[p] < m)
    && (forall x: nat, y: nat :: Q.Precedes(r, x, y) ==> Q.Precedes(order, x, y) && x != y)
  }

  lemma SinceKnown(ls: seq<Line>, begun: seq<nat>, n: nat)
    requires |begun| == |ls| && n < |ls|
    ensures Keeps(OrderOf(ls, begun), Since(OrderOf(ls, begun), n), n, |ls|)
  {
    OrderIs(ls, begun);
    var order := OrderOf(ls, begun);
    var r := Since(order, n);
    forall x: nat, y: nat | Q.Precedes(r, x, y) ensures Q.Precedes(order, x, y) && x != y { SinceIs(order, n, x, y); }
    forall k: nat | n <= k < |ls| ensures k in r { SinceIs(order, n, k, k); }
    forall p | 0 <= p < |r| ensures n <= r[p] < |ls| { SinceIs(order, n, r[p], r[p]); }
  }

  // The last line comes last, and the first comes first unless overtaken.
  lemma EndsOf(ls: seq<Line>, begun: seq<nat>, n: nat)
    requires |begun| == |ls| && n < |ls| && !Prio(ls[|ls| - 1])
    ensures var r := Since(OrderOf(ls, begun), n);
            && r != [] && r[|r| - 1] == |ls| - 1
            && (|r| == 1 <==> |ls| == n + 1)
            && (r[0] == n <==> forall j :: n < j < |ls| ==> !Overtakes(ls, begun, j, n))
  {
    SinceKnown(ls, begun, n);
    OrderIs(ls, begun);
    var order, last := OrderOf(ls, begun), |ls| - 1;
    var r := Since(order, n);
    assert n in r;
    assert last in r;
    var x := r[|r| - 1];
    if x != last {
      var p :| 0 <= p < |r| && r[p] == last;
      assert Q.Precedes(r, last, x);
      FirstUnlessOvertaken(ls, begun, x, last);
      assert false;
    }
    if r[0] != n {
      var p :| 0 <= p < |r| && r[p] == n;
      assert Q.Precedes(r, r[0], n);
      FirstUnlessOvertaken(ls, begun, n, r[0]);
    }
    forall j | n < j < |ls| && r[0] == n ensures !Overtakes(ls, begun, j, n) {
      assert j in r;
      var p :| 0 <= p < |r| && r[p] == j;
      assert Q.Precedes(r, n, j);
      FirstUnlessOvertaken(ls, begun, n, j);
    }
    assert |r| > 1 ==> Q.Precedes(r, r[0], r[1]);
  }

  // What the client that sent a labeled command receives for it is a labeled
  // ACK and nothing else, or a labeled line that opens a batch, lines without a
  // label, and last the one that closes it, if and only if no line with
  // priority is queued for it while that first line waits.
  lemma LabeledShapeIff(s: State, c: nat, text: string, acts: seq<Act>, begun: seq<nat>, ok: bool)
    requires Follows(s, c, ok, false) && Idle(s) && text != "" && c in s.batchers && c in s.labelers
    requires |begun| == |Lines(Command(s, c, text, acts).wire, c)|
    ensures var ls, n := Lines(Command(s, c, text, acts).wire, c), |Lines(s.wire, c)|;
            && n < |ls|
            && (Labeled(Answer(ls, begun, n), Kept(text)) <==> forall j :: n < j < |ls| ==> !Overtakes(ls, begun, j, n))
  {
    ResponseIs(s, c, text, acts, ok);
    var ls, n, new_ := Lines(Command(s, c, text, acts).wire, c), |Lines(s.wire, c)|, Response(s, c, text, acts);
    AnswerShape(ls, n, new_, begun, Kept(text));
  }

  // And so it is for every labeled command there is, after any commands that
  // close the batches they open, whatever became of the nesting meanwhile.
  lemma AlwaysLabeledIff(s: State, cmds: seq<Cmd>, c: nat, text: string, acts: seq<Act>, begun: seq<nat>)
    requires Fresh(s) && Tidy(s, cmds) && text != "" && c in Serve(s, cmds).batchers && c in Serve(s, cmds).labelers
    requires |begun| == |Lines(Command(Serve(s, cmds), c, text, acts).wire, c)|
    ensures var t := Serve(s, cmds);
            var ls, n := Lines(Command(t, c, text, acts).wire, c), |Lines(t.wire, c)|;
            && n < |ls|
            && (Labeled(Answer(ls, begun, n), Kept(text)) <==> forall j :: n < j < |ls| ==> !Overtakes(ls, begun, j, n))
  {
    assert forall id: nat :: !Live(s, id);
    ServeFollows(s, cmds, c, true);
    LabeledShapeIff(Serve(s, cmds), c, text, acts, begun, FineServe(s, cmds, c));
  }

  lemma AnswerShape(ls: seq<Line>, n: nat, new_: seq<Line>, begun: seq<nat>, text: string)
    requires |begun| == |ls| && n < |ls| && ls[n..] == new_ && Labeled(new_, text)
    ensures Labeled(Answer(ls, begun, n), text) <==> forall j :: n < j < |ls| ==> !Overtakes(ls, begun, j, n)
  {
    assert forall k :: n <= k < |ls| ==> ls[k] == new_[k - n];
    EndsOf(ls, begun, n);
    SinceKnown(ls, begun, n);
    var r := Since(OrderOf(ls, begun), n);
    PickAt(ls, r);
    var got := Answer(ls, begun, n);
    if |new_| == 1 {
      assert r[0] == n && got == [ls[n]] && ls[n] == new_[0];
    } else {
      assert got[0] == ls[r[0]] && got[|got| - 1] == ls[|ls| - 1];
      if r[0] == n {
        forall i | 0 < i < |got| ensures got[i].mark.None? {
          assert Q.Precedes(r, r[0], r[i]);
        }
      }
    }
  }
}
