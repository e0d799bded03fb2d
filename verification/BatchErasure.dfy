/**
 * What a client receives once batch lines, ACKs and tags are taken away: the
 * lines that frame the others change nothing about them, not even their order.
 */
module BatchErasure {
  import opened Batch
  import opened BatchLabels
  import opened BatchReceipt
  import Q = SendQueue

  lemma {:induction false} EraseBoth(a: seq<Line>, b: seq<Line>)
    ensures Erase(a + b) == Erase(a) + Erase(b)
    decreases |b|
  {
    if b == [] {
      assert a + b == a;
    } else {
      var m := |b| - 1;
      EraseBoth(a, b[..m]);
      assert (a + b)[..|a| + m] == a + b[..m] && (a + b)[|a| + m] == b[m];
    }
  }

  // What is left of some of the lines.
  function Left(ls: seq<Line>, ns: seq<nat>): seq<Kind> { Erase(Pick(ls, ns)) }

  lemma LeftBoth(ls: seq<Line>, a: seq<nat>, b: seq<nat>)
    ensures Left(ls, a + b) == Left(ls, a) + Left(ls, b)
  {
    PickBoth(ls, a, b);
    EraseBoth(Pick(ls, a), Pick(ls, b));
  }

  lemma LeftOne(ls: seq<Line>, n: nat)
    requires n < |ls|
    ensures Left(ls, [n]) == if ls[n].what.Plain? then [ls[n].what] else []
  {
    PickOne(ls, n);
    Next([], ls[n]);
    assert [] + [ls[n]] == [ls[n]];
  }

  lemma LeftHead(ls: seq<Line>, ns: seq<nat>)
    requires ns != [] && ns[0] < |ls|
    ensures Left(ls, ns) == (if ls[ns[0]].what.Plain? then [ls[ns[0]].what] else []) + Left(ls, ns[1..])
  {
    assert ns == [ns[0]] + ns[1..];
    LeftBoth(ls, [ns[0]], ns[1..]);
    LeftOne(ls, ns[0]);
  }

  // ----- Two queues that hold the same but for that -------------------------

  // Every line queued is known, and those with priority are plain.
  predicate Proper(ls: seq<Line>, q: Q.Queue) {
    && (forall p :: 0 <= p < |q.prio| ==> q.prio[p] < |ls| && ls[q.prio[p]].what.Plain?)
    && (forall p :: 0 <= p < |q.norm| ==> q.norm[p] < |ls|)
  }

  predicate Alike(ls: seq<Line>, q: Q.Queue, ms: seq<Line>, r: Q.Queue) {
    && Proper(ls, q) && Proper(ms, r)
    && Left(ls, q.got) == Left(ms, r.got)
    && Left(ls, q.prio) == Left(ms, r.prio)
    && Left(ls, q.norm) == Left(ms, r.norm)
  }

  lemma BothAdded(ls: seq<Line>, q: Q.Queue, i: nat, ms: seq<Line>, r: Q.Queue, j: nat)
    requires Alike(ls, q, ms, r) && i < |ls| && j < |ms| && ls[i].what == ms[j].what && ls[i].what.Plain?
    ensures Alike(ls, Q.Add(q, i, Prio(ls[i])), ms, Q.Add(r, j, Prio(ms[j])))
  {
    PlainAdded(ls, q, i);
    PlainAdded(ms, r, j);
  }

  lemma PlainAdded(ls: seq<Line>, q: Q.Queue, i: nat)
    requires i < |ls| && ls[i].what.Plain? && Proper(ls, q)
    ensures var t := Q.Add(q, i, Prio(ls[i]));
            && Proper(ls, t) && t.got == q.got
            && Left(ls, t.prio) == Left(ls, q.prio) + (if Prio(ls[i]) then [ls[i].what] else [])
            && Left(ls, t.norm) == Left(ls, q.norm) + (if Prio(ls[i]) then [] else [ls[i].what])
  {
    LeftOne(ls, i);
    LeftBoth(ls, if Prio(ls[i]) then q.prio else q.norm, [i]);
  }

  lemma FrameAdded(ls: seq<Line>, q: Q.Queue, i: nat)
    requires i < |ls| && !ls[i].what.Plain? && Proper(ls, q)
    ensures Proper(ls, Q.Add(q, i, false)) && Left(ls, Q.Add(q, i, false).norm) == Left(ls, q.norm)
  {
    LeftOne(ls, i);
    LeftBoth(ls, q.norm, [i]);
  }

  lemma BegunProper(ls: seq<Line>, q: Q.Queue)
    requires Proper(ls, q)
    ensures Proper(ls, Q.Begin(q))
  {
  }

  // The queue begins the line it has next.
  lemma HighBegun(ls: seq<Line>, q: Q.Queue)
    requires Proper(ls, q) && q.prio != []
    ensures var t := Q.Begin(q);
            && t.norm == q.norm && Left(ls, q.prio) == [ls[q.prio[0]].what] + Left(ls, t.prio)
            && Left(ls, t.got) == Left(ls, q.got) + [ls[q.prio[0]].what]
  {
    LeftHead(ls, q.prio);
    LeftBoth(ls, q.got, [q.prio[0]]);
    LeftOne(ls, q.prio[0]);
  }

  lemma LowBegun(ls: seq<Line>, q: Q.Queue)
    requires Proper(ls, q) && q.prio == [] && q.norm != []
    ensures q.norm[0] < |ls|
    ensures var t, w := Q.Begin(q), ls[q.norm[0]].what;
            && t.prio == [] && t.norm == q.norm[1..]
            && Left(ls, q.norm) == (if w.Plain? then [w] else []) + Left(ls, t.norm)
            && Left(ls, t.got) == Left(ls, q.got) + (if w.Plain? then [w] else [])
  {
    LeftHead(ls, q.norm);
    LeftBoth(ls, q.got, [q.norm[0]]);
    LeftOne(ls, q.norm[0]);
  }

  // The other queue gets as far, past whatever frames it has.
  lemma {:induction false} PlainBegun(ms: seq<Line>, r: Q.Queue, w: Kind, rest: seq<Kind>) returns (n: nat)
    requires Proper(ms, r) && r.prio == [] && Left(ms, r.norm) == [w] + rest
    ensures var t := Q.BeginMany(r, n);
            && Proper(ms, t) && t.prio == [] && Left(ms, t.norm) == rest
            && Left(ms, t.got) == Left(ms, r.got) + [w]
    decreases |r.norm|
  {
    assert r.norm != [];
    LowBegun(ms, r);
    BegunProper(ms, r);
    var t := Q.Begin(r);
    if ms[r.norm[0]].what.Plain? {
      assert ms[r.norm[0]].what == ([w] + rest)[0] && Left(ms, t.norm) == ([w] + rest)[1..];
      n := 1;
      assert Q.BeginMany(r, 1) == Q.BeginMany(t, 0);
    } else {
      n := PlainBegun(ms, t, w, rest);
      n := n + 1;
    }
  }

  lemma OneMatched(ls: seq<Line>, q: Q.Queue, ms: seq<Line>, r: Q.Queue) returns (n: nat)
    requires Alike(ls, q, ms, r)
    ensures Alike(ls, Q.Begin(q), ms, Q.BeginMany(r, n))
  {
    BegunProper(ls, q);
    if q.prio != [] {
      HighBegun(ls, q);
      assert r.prio != [];
      HighBegun(ms, r);
      BegunProper(ms, r);
      n := 1;
      assert Q.BeginMany(r, 1) == Q.BeginMany(Q.Begin(r), 0);
      SameHead(ls[q.prio[0]].what, Left(ls, Q.Begin(q).prio), ms[r.prio[0]].what, Left(ms, Q.Begin(r).prio));
    } else if q.norm != [] {
      NoneHigh(ms, r);
      LowBegun(ls, q);
      if ls[q.norm[0]].what.Plain? {
        n := PlainBegun(ms, r, ls[q.norm[0]].what, Left(ls, Q.Begin(q).norm));
      } else {
        n := 0;
      }
    } else {
      n := 0;
    }
  }

  lemma SameHead(v: Kind, a: seq<Kind>, w: Kind, b: seq<Kind>)
    requires [v] + a == [w] + b
    ensures v == w && a == b
  {
    assert ([v] + a)[0] == v && ([v] + a)[1..] == a && ([w] + b)[1..] == b;
  }

  lemma NoneHigh(ms: seq<Line>, r: Q.Queue)
    requires Proper(ms, r) && Left(ms, r.prio) == []
    ensures r.prio == []
  {
    if r.prio != [] { HighBegun(ms, r); }
  }

  lemma {:induction false} ManyMatched(ls: seq<Line>, q: Q.Queue, m: nat, ms: seq<Line>, r: Q.Queue) returns (n: nat)
    requires Alike(ls, q, ms, r)
    ensures Alike(ls, Q.BeginMany(q, m), ms, Q.BeginMany(r, n))
    decreases m
  {
    if m == 0 {
      n := 0;
    } else {
      var one := OneMatched(ls, q, ms, r);
      n := ManyMatched(ls, Q.Begin(q), m - 1, ms, Q.BeginMany(r, one));
      Q.BeginTwice(r, one, n);
      n := one + n;
    }
  }

  // ----- Line by line -------------------------------------------------------

  function QueueOf(ls: seq<Line>, begun: seq<nat>): Q.Queue
    requires |begun| == |ls|
  {
    QueueAt(ls, begun, |ls|)
  }

  lemma QueueMore(ls: seq<Line>, begun: seq<nat>, l: Line, n: nat)
    requires |begun| == |ls|
    ensures QueueOf(ls + [l], begun + [n]) == Q.BeginMany(Q.Add(QueueOf(ls, begun), |ls|, Prio(l)), n)
  {
    QueueNext(ls + [l], begun + [n], |ls|);
    assert Steps(ls + [l], begun + [n])[..|ls|] == Steps(ls, begun)[..|ls|];
  }

  // Beginning more lines after the last.
  lemma BegunLater(ls: seq<Line>, begun: seq<nat>, n: nat) returns (b: seq<nat>)
    requires |begun| == |ls| && ls != []
    ensures |b| == |ls| && QueueOf(ls, b) == Q.BeginMany(QueueOf(ls, begun), n)
  {
    var m := |ls| - 1;
    b := begun[..m] + [begun[m] + n];
    assert ls == ls[..m] + [ls[m]] && begun == begun[..m] + [begun[m]];
    QueueMore(ls[..m], begun[..m], ls[m], begun[m]);
    QueueMore(ls[..m], begun[..m], ls[m], begun[m] + n);
    Q.BeginTwice(Q.Add(QueueOf(ls[..m], begun[..m]), m, Prio(ls[m])), begun[m], n);
  }

  lemma {:induction false} NothingBegun(n: nat)
    ensures Q.BeginMany(Q.Empty, n) == Q.Empty
  {
    if n > 0 { NothingBegun(n - 1); }
  }

  lemma EraseNext(ls: seq<Line>, k: nat)
    requires 0 < k <= |ls|
    ensures Erase(ls[..k]) == Erase(ls[..k - 1]) + (if ls[k - 1].what.Plain? then [ls[k - 1].what] else [])
  {
    Next(ls[..k - 1], ls[k - 1]);
    assert ls[..k - 1] + [ls[k - 1]] == ls[..k];
  }

  // The first k lines of one list and the first j of the other, which leave the
  // same, with moments of writing for the other.
  ghost predicate Matched(ls: seq<Line>, begun: seq<nat>, k: nat, ms: seq<Line>, j: nat, b: seq<nat>) {
    && |begun| == |ls| && k <= |ls| && j <= |ms| && |b| == j
    && Alike(ls, QueueAt(ls, begun, k), ms, QueueOf(ms[..j], b))
  }

  // A frame more in the first.
  lemma FrameHere(ls: seq<Line>, begun: seq<nat>, k: nat, ms: seq<Line>, j: nat, b: seq<nat>) returns (b': seq<nat>)
    requires k < |ls| && !ls[k].what.Plain? && Matched(ls, begun, k, ms, j, b)
    ensures Matched(ls, begun, k + 1, ms, j, b')
  {
    var q, r := QueueAt(ls, begun, k), QueueOf(ms[..j], b);
    QueueNext(ls, begun, k);
    FrameAdded(ls, q, k);
    var n := ManyMatched(ls, Q.Add(q, k, false), begun[k], ms, r);
    if j == 0 {
      NothingBegun(n);
      b' := b;
    } else {
      b' := BegunLater(ms[..j], b, n);
    }
  }

  // A frame more in the other.
  lemma FrameThere(ls: seq<Line>, begun: seq<nat>, k: nat, ms: seq<Line>, j: nat, b: seq<nat>)
    requires j < |ms| && !ms[j].what.Plain? && Matched(ls, begun, k, ms, j, b)
    ensures Matched(ls, begun, k, ms, j + 1, b + [0])
  {
    var r := QueueOf(ms[..j], b);
    assert ms[..j + 1] == ms[..j] + [ms[j]];
    QueueMore(ms[..j], b, ms[j], 0);
    FrameAdded(ms, r, j);
  }

  lemma BothAddedAndBegun(ls: seq<Line>, q: Q.Queue, i: nat, m: nat, ms: seq<Line>, r: Q.Queue, j: nat) returns (n: nat)
    requires Alike(ls, q, ms, r) && i < |ls| && j < |ms| && ls[i].what == ms[j].what && ls[i].what.Plain?
    ensures Alike(ls, Q.BeginMany(Q.Add(q, i, Prio(ls[i])), m), ms, Q.BeginMany(Q.Add(r, j, Prio(ms[j])), n))
  {
    BothAdded(ls, q, i, ms, r, j);
    n := ManyMatched(ls, Q.Add(q, i, Prio(ls[i])), m, ms, Q.Add(r, j, Prio(ms[j])));
  }

  // The same line more in both.
  lemma LineMore(ls: seq<Line>, begun: seq<nat>, k: nat, ms: seq<Line>, j: nat, b: seq<nat>) returns (b': seq<nat>)
    requires k < |ls| && j < |ms| && ls[k].what == ms[j].what && ls[k].what.Plain? && Matched(ls, begun, k, ms, j, b)
    ensures Matched(ls, begun, k + 1, ms, j + 1, b')
  {
    var n := BothAddedAndBegun(ls, QueueAt(ls, begun, k), k, begun[k], ms, QueueOf(ms[..j], b), j);
    b' := b + [n];
    QueueNext(ls, begun, k);
    assert ms[..j + 1] == ms[..j] + [ms[j]];
    QueueMore(ms[..j], b, ms[j], n);
  }

  // Which of the two lists to take a line from.
  lemma LastLines(ls: seq<Line>, k: nat, ms: seq<Line>, j: nat)
    requires k <= |ls| && j <= |ms| && Erase(ls[..k]) == Erase(ms[..j])
    ensures k > 0 && !ls[k - 1].what.Plain? ==> Erase(ls[..k - 1]) == Erase(ms[..j])
    ensures j > 0 && !ms[j - 1].what.Plain? ==> Erase(ls[..k]) == Erase(ms[..j - 1])
    ensures k > 0 && ls[k - 1].what.Plain? && (j > 0 ==> ms[j - 1].what.Plain?) ==>
              j > 0 && ls[k - 1].what == ms[j - 1].what && Erase(ls[..k - 1]) == Erase(ms[..j - 1])
    ensures k == 0 && (j > 0 ==> ms[j - 1].what.Plain?) ==> j == 0
  {
    if k > 0 { EraseNext(ls, k); }
    if j > 0 { EraseNext(ms, j); }
    if k > 0 && j > 0 && ls[k - 1].what.Plain? && ms[j - 1].what.Plain? {
      SameLast(Erase(ls[..k - 1]), ls[k - 1].what, Erase(ms[..j - 1]), ms[j - 1].what);
    }
  }

  lemma NoneMatched(ls: seq<Line>, begun: seq<nat>, ms: seq<Line>)
    requires |begun| == |ls|
    ensures Matched(ls, begun, 0, ms, 0, [])
  {
  }

  lemma {:induction false} MatchTo(ls: seq<Line>, begun: seq<nat>, k: nat, ms: seq<Line>, j: nat) returns (b: seq<nat>)
    requires |begun| == |ls| && k <= |ls| && j <= |ms| && Erase(ls[..k]) == Erase(ms[..j])
    ensures Matched(ls, begun, k, ms, j, b)
    decreases k + j, 1
  {
    LastLines(ls, k, ms, j);
    if k > 0 && !ls[k - 1].what.Plain? {
      b := MatchHere(ls, begun, k - 1, ms, j);
    } else if j > 0 && !ms[j - 1].what.Plain? {
      b := MatchThere(ls, begun, k, ms, j - 1);
    } else if k > 0 {
      b := MatchBoth(ls, begun, k - 1, ms, j - 1);
    } else {
      b := [];
      NoneMatched(ls, begun, ms);
    }
  }

  lemma {:induction false} MatchHere(ls: seq<Line>, begun: seq<nat>, k: nat, ms: seq<Line>, j: nat)
      returns (b: seq<nat>)
    requires |begun| == |ls| && k < |ls| && j <= |ms| && Erase(ls[..k]) == Erase(ms[..j]) && !ls[k].what.Plain?
    ensures Matched(ls, begun, k + 1, ms, j, b)
    decreases k + 1 + j, 0
  {
    b := MatchTo(ls, begun, k, ms, j);
    b := FrameHere(ls, begun, k, ms, j, b);
  }

  lemma {:induction false} MatchThere(ls: seq<Line>, begun: seq<nat>, k: nat, ms: seq<Line>, j: nat)
      returns (b: seq<nat>)
    requires |begun| == |ls| && k <= |ls| && j < |ms| && Erase(ls[..k]) == Erase(ms[..j]) && !ms[j].what.Plain?
    ensures Matched(ls, begun, k, ms, j + 1, b)
    decreases k + j + 1, 0
  {
    b := MatchTo(ls, begun, k, ms, j);
    FrameThere(ls, begun, k, ms, j, b);
    b := b + [0];
  }

  lemma {:induction false} MatchBoth(ls: seq<Line>, begun: seq<nat>, k: nat, ms: seq<Line>, j: nat)
      returns (b: seq<nat>)
    requires |begun| == |ls| && k < |ls| && j < |ms| && Erase(ls[..k]) == Erase(ms[..j])
    requires ls[k].what == ms[j].what && ls[k].what.Plain?
    ensures Matched(ls, begun, k + 1, ms, j + 1, b)
    decreases k + j + 2, 0
  {
    b := MatchTo(ls, begun, k, ms, j);
    b := LineMore(ls, begun, k, ms, j, b);
  }

  lemma SameLast(a: seq<Kind>, v: Kind, b: seq<Kind>, w: Kind)
    requires a + [v] == b + [w]
    ensures a == b && v == w
  {
    assert |a| == |b| && (a + [v])[..|a|] == a && (b + [w])[..|b|] == b && (a + [v])[|a|] == v && (b + [w])[|b|] == w;
  }

  // ----- What is received ---------------------------------------------------

  // Of two lists of lines that leave the same once erased, whatever is received
  // of one can be received of the other.
  lemma SameReceived(ls: seq<Line>, begun: seq<nat>, ms: seq<Line>) returns (b: seq<nat>)
    requires |begun| == |ls| && Erase(ls) == Erase(ms)
    ensures |b| == |ms| && Erase(Received(ms, b)) == Erase(Received(ls, begun))
  {
    assert ls[..|ls|] == ls && ms[..|ms|] == ms;
    b := MatchTo(ls, begun, |ls|, ms, |ms|);
    var q, r := QueueOf(ls, begun), QueueOf(ms, b);
    LeftBoth(ls, q.got, q.prio);
    LeftBoth(ls, q.got + q.prio, q.norm);
    LeftBoth(ms, r.got, r.prio);
    LeftBoth(ms, r.got + r.prio, r.norm);
  }

  // What a client receives of a labeled command, with the batch lines, the ACKs
  // and the tags taken away, it can receive of the same command with any other
  // label or with none, in the same order.
  lemma LabelOnlyFramesReceived(s: State, c: nat, text: string, other: string, acts: seq<Act>, d: nat, begun: seq<nat>)
      returns (b: seq<nat>)
    requires |begun| == |Lines(Command(s, c, text, acts).wire, d)|
    ensures var ls, ms := Lines(Command(s, c, text, acts).wire, d), Lines(Command(s, c, other, acts).wire, d);
            |b| == |ms| && Erase(Received(ms, b)) == Erase(Received(ls, begun))
  {
    LabelOnlyFrames(s, c, text, other, acts, d);
    b := SameReceived(Lines(Command(s, c, text, acts).wire, d), begun, Lines(Command(s, c, other, acts).wire, d));
  }
}
