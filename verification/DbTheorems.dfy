/**
 * What the table of database calls promises, over all of its runs.
 */
module DbTheorems {
  import opened Options
  import opened Db

  ghost predicate Reachable(s: State) {
    exists acts :: Run(Start, acts, s)
  }

  lemma ReachableInv(s: State)
    requires Reachable(s)
    ensures Inv(s)
  {
    var acts :| Run(Start, acts, s);
    StartInv();
    RunKeeps(Start, acts, s);
  }

  // ----- Conservation -------------------------------------------------------

  predicate Leaves(n: Note, id: nat) {
    match n
    case Withdrawn(i) => i == id
    case Completed(i, _) => i == id
    case Failed(i, _) => i == id
    case Dropped(i, _) => i == id
    case _ => false
  }

  predicate Calls(n: Note, id: nat) {
    match n
    case Completed(i, called) => i == id && called
    case Failed(i, called) => i == id && called
    case _ => false
  }

  function Count(hist: seq<Note>, id: nat, calls: bool): nat {
    if hist == [] then
      0
    else
      var n := hist[|hist| - 1];
      Count(hist[..|hist| - 1], id, calls) + (if (if calls then Calls(n, id) else Leaves(n, id)) then 1 else 0)
  }

  lemma {:induction false} LifeCounts(hist: seq<Note>, id: nat)
    requires Life(hist, id) != Wrong
    ensures Count(hist, id, false) == if Life(hist, id).Gone? then 1 else 0
    ensures Count(hist, id, true) == if Life(hist, id) == Gone(true) then 1 else 0
  {
    if hist != [] {
      LifeCounts(hist[..|hist| - 1], id);
    }
  }

  // Every call ever placed is in the table or has left it once - not both, not
  // neither - and its callback has run at most once, and never while it was
  // still there.
  lemma CallsAreConserved(s: State, id: nat)
    requires Reachable(s) && 0 < id < s.next
    ensures Count(s.hist, id, false) + (if exists c :: c in s.calls && c.id == id then 1 else 0) == 1
    ensures Count(s.hist, id, true) <= Count(s.hist, id, false)
  {
    ReachableInv(s);
    assert Tracks(s, id);
    LifeCounts(s.hist, id);
  }

  // The number of calls reported as waiting is the number there are.
  lemma PendingIsExact(s: State)
    requires Reachable(s)
    ensures s.pending == |s.calls|
  {
    ReachableInv(s);
  }

  lemma {:induction false} NeverWrongBefore(hist: seq<Note>, k: nat, id: nat)
    requires k <= |hist| && Life(hist, id) != Wrong
    ensures Life(hist[..k], id) != Wrong
    decreases |hist|
  {
    if k < |hist| {
      var last := |hist| - 1;
      NeverWrongBefore(hist[..last], k, id);
      assert hist[..last][..k] == hist[..k];
    } else {
      assert hist[..k] == hist;
    }
  }

  lemma {:induction false} ListedWasPlaced(hist: seq<Note>, id: nat) returns (j: nat)
    requires Life(hist, id).Listed?
    ensures j < |hist| && hist[j] == Placed(id, Life(hist, id).call)
  {
    var last := |hist| - 1;
    if hist[last].Placed? && hist[last].id == id {
      j := last;
    } else {
      j := ListedWasPlaced(hist[..last], id);
    }
  }

  // A call leaves after it was placed. Answered or failed, its callback runs
  // if and only if it has one; dropped, it was of the module that left.
  lemma LeavesForAReason(s: State, k: nat, id: nat) returns (j: nat, c: Call)
    requires Reachable(s) && k < |s.hist| && Leaves(s.hist[k], id)
    ensures j < k && s.hist[j] == Placed(id, c)
    ensures Calls(s.hist[k], id) <==> c.wants && (s.hist[k].Completed? || s.hist[k].Failed?)
    ensures s.hist[k].Dropped? ==> c.owner == Some(s.hist[k].mod)
  {
    ReachableInv(s);
    assert Tracks(s, id);
    NeverWrongBefore(s.hist, k + 1, id);
    LifeNext(s.hist[..k], s.hist[k], id);
    assert s.hist[..k + 1] == s.hist[..k] + [s.hist[k]];
    j := ListedWasPlaced(s.hist[..k], id);
    c := Life(s.hist[..k], id).call;
  }

  // A module leaves no call behind.
  lemma {:induction false} DropsClear(s: State, k: nat, mod: nat)
    requires k <= |s.calls| && forall i :: 0 <= i < k ==> s.calls[i].owner != Some(mod)
    ensures forall c :: c in Drops(s, k, mod).calls ==> c.owner != Some(mod)
    ensures forall c :: c in s.calls && c.owner != Some(mod) ==> c in Drops(s, k, mod).calls
    decreases |s.calls| - k
  {
    if k < |s.calls| {
      if s.calls[k].owner == Some(mod) {
        var t := Take(s, k, Dropped(s.calls[k].id, mod));
        DropsClear(t, k, mod);
        forall c | c in s.calls && c.owner != Some(mod) ensures c in t.calls {
          var i :| 0 <= i < |s.calls| && s.calls[i] == c;
          assert t.calls[if i < k then i else i - 1] == c;
        }
      } else {
        DropsClear(s, k + 1, mod);
      }
    }
  }

  // ----- When the driver goes -----------------------------------------------

  // A run during which the stack is never lower than `depth`, until its last
  // step, which takes it below.
  ghost predicate Within(s: State, acts: seq<Action>, t: State, depth: nat)
    decreases |acts|
  {
    if acts == [] then
      t == s && |s.stack| < depth
    else
      |s.stack| >= depth && Enabled(s, acts[0]) && Within(Do(s, acts[0]), acts[1..], t, depth)
  }

  lemma {:induction false} WithinRuns(s: State, acts: seq<Action>, t: State, depth: nat)
    requires Within(s, acts, t, depth)
    ensures Run(s, acts, t)
    decreases |acts|
  {
    if acts != [] {
      WithinRuns(Do(s, acts[0]), acts[1..], t, depth);
    }
  }

  lemma {:induction false} DropsStack(s: State, k: nat, mod: nat)
    requires k <= |s.calls|
    ensures Drops(s, k, mod).stack == s.stack && Drops(s, k, mod).driver == s.driver
    ensures Drops(s, k, mod).drivers == s.drivers
    decreases |s.calls| - k
  {
    if k < |s.calls| {
      if s.calls[k].owner == Some(mod) {
        DropsStack(Take(s, k, Dropped(s.calls[k].id, mod)), k, mod);
      } else {
        DropsStack(s, k + 1, mod);
      }
    }
  }

  // A step adds a frame, takes one off, or leaves the stack as it is.
  lemma StackStep(s: State, a: Action, t: State)
    requires Enabled(s, a) && t == Do(s, a)
    ensures || t.stack == s.stack || (t.stack != [] && t.stack == [t.stack[0]] + s.stack)
            || (s.stack != [] && t.stack == s.stack[1..] && (a.Answer? || a.Release? || a.FailNext?))
  {
    if a.DropModule? {
      DropsStack(s, 0, a.gone);
    }
  }

  // A step leaves what is below the top alone.
  lemma BelowStays(s: State, a: Action, depth: nat)
    requires Enabled(s, a) && 0 < depth <= |s.stack|
    ensures var t := Do(s, a);
            && |t.stack| >= depth - 1
            && (|t.stack| >= depth ==> t.stack[|t.stack| - depth..] == s.stack[|s.stack| - depth..])
    ensures |Do(s, a).stack| < depth ==> |s.stack| == depth && (a.Answer? || a.Release? || a.FailNext?)
  {
    StackStep(s, a, Do(s, a));
    OneFrame(s.stack, Do(s, a).stack, depth);
  }

  lemma OneFrame(x: seq<Frame>, y: seq<Frame>, depth: nat)
    requires 0 < depth <= |x|
    requires y == x || (y != [] && y == [y[0]] + x) || y == x[1..]
    ensures |y| >= depth - 1 && (|y| >= depth ==> y[|y| - depth..] == x[|x| - depth..])
  {
  }

  // The failing of what is left is over only when nothing is left.
  lemma {:induction false} FailingClears(s: State, acts: seq<Action>, t: State, depth: nat)
    requires 0 < depth <= |s.stack| && s.stack[|s.stack| - depth].Failing? && Within(s, acts, t, depth)
    ensures t.calls == []
    decreases |acts|
  {
    var next := Do(s, acts[0]);
    BelowStays(s, acts[0], depth);
    if |next.stack| < depth {
      assert acts[0].FailNext? && acts[1..] == [];
    } else {
      assert next.stack[|next.stack| - depth] == next.stack[|next.stack| - depth..][0];
      FailingClears(next, acts[1..], t, depth);
    }
  }

  // From the moment a driver is withdrawn to the moment that is done, whatever
  // the callbacks do: every call that was in flight has left the table - and so
  // has every call placed meanwhile, be it with another driver.
  lemma WithdrawalFailsAll(s: State, mod: Option<nat>, acts: seq<Action>, t: State)
    requires Reachable(s) && s.driver.Some? && s.driver.value.mod == mod
    requires Within(Do(s, Unregister(mod)), acts, t, |s.stack| + 1)
    ensures t.calls == [] && s.next <= t.next
    ensures forall id :: 0 < id < t.next ==> Life(t.hist, id).Gone?
  {
    var s1 := Do(s, Unregister(mod));
    ReachableInv(s);
    StepKeeps(s, Unregister(mod));
    FailingClears(s1, acts, t, |s.stack| + 1);
    WithinRuns(s1, acts, t, |s.stack| + 1);
    RunKeeps(s1, acts, t);
    NextGrows(s1, acts, t);
    forall id | 0 < id < t.next ensures Life(t.hist, id).Gone? {
      assert Tracks(t, id);
    }
  }

  lemma {:induction false} DropsNext(s: State, k: nat, mod: nat)
    requires k <= |s.calls|
    ensures Drops(s, k, mod).next == s.next
    decreases |s.calls| - k
  {
    if k < |s.calls| {
      if s.calls[k].owner == Some(mod) {
        DropsNext(Take(s, k, Dropped(s.calls[k].id, mod)), k, mod);
      } else {
        DropsNext(s, k + 1, mod);
      }
    }
  }

  lemma {:induction false} NextGrows(s: State, acts: seq<Action>, t: State)
    requires Run(s, acts, t)
    ensures s.next <= t.next
    decreases |acts|
  {
    if acts != [] {
      if acts[0].DropModule? {
        DropsNext(s, 0, acts[0].gone);
      }
      NextGrows(Do(s, acts[0]), acts[1..], t);
    }
  }

  // With callbacks that place nothing it is over after one turn for each call.
  lemma {:induction false} WithdrawalCanEnd(s: State) returns (acts: seq<Action>, t: State)
    requires s.stack != [] && s.stack[0].Failing?
    ensures Within(s, acts, t, |s.stack|) && |acts| == |s.calls| + 1
    decreases |s.calls|
  {
    var next := Do(s, FailNext);
    var rest := [];
    t := next;
    if s.calls != [] {
      rest, t := WithdrawalCanEnd(next);
    }
    acts := [FailNext] + rest;
    assert acts[1..] == rest;
  }

  lemma OneStep(s: State, a: Action, next: State, acts: seq<Action>, t: State)
    requires Enabled(s, a) && Do(s, a) == next && Run(next, acts, t)
    ensures Run(s, [a] + acts, t)
  {
    assert ([a] + acts)[1..] == acts;
  }

  // A callback of the withdrawal registers another driver and places a call
  // with it: the old withdrawal fails that call too, with the new driver there
  // to answer it.
  lemma NewDriverFails() returns (acts: seq<Action>, t: State)
    ensures Run(Start, acts, t) && t.driver == Some(Driver(Some(9), 1))
    ensures |t.hist| == 4 && t.hist[2..] == [Placed(2, Call(2, true, None)), Failed(2, true)]
  {
    var c1, c2 := Call(1, true, None), Call(2, true, None);
    var d, e := Driver(None, 0), Driver(Some(9), 1);
    var h := [Placed(1, c1), Failed(1, true)];
    var s5 := State([], None, 1, true, 2, 0, 0, [Failing], h);
    var s6 := s5.(driver := Some(e), drivers := 2);
    var s7 := State([c2], Some(e), 2, true, 3, 0, 1, [Submitting(2), Failing], h + [Placed(2, c2)]);
    var s8 := s7.(stack := [Failing]);
    t := State([], Some(e), 2, true, 3, 0, 0, [Failing], h + [Placed(2, c2), Failed(2, true)]);
    OneStep(s8, FailNext, t, [], t);
    OneStep(s7, Answer(true), s8, [FailNext] + [], t);
    OneStep(s6, Submit(None, true), s7, [Answer(true)] + ([FailNext] + []), t);
    acts := [Submit(None, true)] + ([Answer(true)] + ([FailNext] + []));
    OneStep(s5, Register(Some(9)), s6, acts, t);
    acts := [Register(Some(9))] + acts;
    acts := FirstFailed(s5, acts, t);
  }

  lemma FirstFailed(s5: State, rest: seq<Action>, t: State) returns (acts: seq<Action>)
    requires s5 == State([], None, 1, true, 2, 0, 0, [Failing], [Placed(1, Call(1, true, None)), Failed(1, true)])
    requires Run(s5, rest, t)
    ensures Run(Start, acts, t)
  {
    var c1, d := Call(1, true, None), Driver(None, 0);
    var s1 := Start.(driver := Some(d), drivers := 1);
    var s2 := s1.(configured := true);
    var s3 := State([c1], Some(d), 1, true, 2, 0, 1, [Submitting(1)], [Placed(1, c1)]);
    var s4 := s3.(stack := []);
    var s4' := s4.(driver := None, stack := [Failing]);
    OneStep(s4', FailNext, s5, rest, t);
    acts := [FailNext] + rest;
    OneStep(s4, Unregister(None), s4', acts, t);
    acts := [Unregister(None)] + acts;
    OneStep(s3, Answer(true), s4, acts, t);
    acts := [Answer(true)] + acts;
    OneStep(s2, Submit(None, true), s3, acts, t);
    acts := [Submit(None, true)] + acts;
    OneStep(s1, Configure(true), s2, acts, t);
    acts := [Configure(true)] + acts;
    OneStep(Start, Register(None), s1, acts, t);
    acts := [Register(None)] + acts;
  }
}
