/**
 * Requests that take too long: the pass that ends them, from its beginning to
 * its end, and the timer that should start it.
 */
module HttpPasses {
  import opened Options
  import opened HttpCalls

  // ----- The pass -----------------------------------------------------------

  // A run during which the stack is never lower than `depth`, until its last
  // step, which takes it below.
  ghost predicate Within(s: State, acts: seq<Action>, t: State, depth: nat)
    decreases |acts|
  {
    if acts == [] then
      t == s && |s.stack| < depth
    else
      |s.stack| >= depth && Enabled(s, acts[0]) && Within(Do(s, acts[0]), acts[1..], t, depth)
  }

  lemma {:induction false} WithinRuns(s: State, acts: seq<Action>, t: State, depth: nat)
    requires Within(s, acts, t, depth)
    ensures Run(s, acts, t)
    decreases |acts|
  {
    if acts != [] {
      WithinRuns(Do(s, acts[0]), acts[1..], t, depth);
    }
  }

  lemma {:induction false} DropsAside(s: State, k: nat, mod: nat)
    requires k <= |s.calls|
    ensures var t := Drops(s, k, mod); t.stack == s.stack && t.armed == s.armed && t.last == s.last && s.hist <= t.hist
    ensures forall c :: c in Drops(s, k, mod).calls ==> c in s.calls
    decreases |s.calls| - k
  {
    if k < |s.calls| {
      if s.calls[k].mod == mod {
        DropsAside(Take(s, k, Cancelled(s.calls[k].id, s.calls[k].pid, mod)), k, mod);
      } else {
        DropsAside(s, k + 1, mod);
      }
    }
  }

  lemma {:induction false} SilencesGrow(s: State)
    ensures s.hist <= Silences(s).hist
    decreases |s.calls|
  {
    if s.calls != [] {
      SilencesGrow(Take(s, 0, Silenced(s.calls[0].id)));
    }
  }

  // What every step leaves alone.
  lemma StepAside(s: State, a: Action)
    requires Enabled(s, a)
    ensures s.hist <= Do(s, a).hist
    ensures a.DropModule? || a.StopListening? ==> Do(s, a).stack == s.stack && Do(s, a).armed == s.armed
    ensures a.DropModule? || a.StopListening? ==> forall c :: c in Do(s, a).calls ==> c in s.calls
  {
    if a.DropModule? { DropsAside(s, 0, a.mod); }
    if a.StopListening? {
      SilencedLast(s.(listening := false));
      SilencesGrow(s.(listening := false));
    }
  }

  lemma {:induction false} RunGrows(s: State, acts: seq<Action>, t: State)
    requires Run(s, acts, t)
    ensures s.hist <= t.hist
    decreases |acts|
  {
    if acts != [] {
      StepAside(s, acts[0]);
      RunGrows(Do(s, acts[0]), acts[1..], t);
    }
  }

  // A step leaves what is below the top alone.
  lemma BelowStays(s: State, a: Action, depth: nat)
    requires Enabled(s, a) && 0 < depth <= |s.stack|
    ensures var t := Do(s, a);
            && |t.stack| >= depth - 1
            && (|t.stack| >= depth ==> t.stack[|t.stack| - depth..] == s.stack[|s.stack| - depth..])
    ensures |Do(s, a).stack| < depth ==> |s.stack| == depth && (a.Return? || a.ExpireNext?)
  {
    StepAside(s, a);
  }

  lemma {:induction false} PassClears(s: State, acts: seq<Action>, t: State, depth: nat, f: Frame)
    requires 0 < depth <= |s.stack| && s.stack[|s.stack| - depth] == f && f.Expiring? && Within(s, acts, t, depth)
    ensures forall c :: c in t.calls ==> c.deadline > f.now
    decreases |acts|
  {
    var next := Do(s, acts[0]);
    BelowStays(s, acts[0], depth);
    if |next.stack| < depth {
      assert acts[0].ExpireNext? && acts[1..] == [];
      forall c | c in t.calls ensures c.deadline > f.now {
        var j :| 0 <= j < |s.calls| && s.calls[j] == c;
      }
    } else {
      assert next.stack[|next.stack| - depth] == next.stack[|next.stack| - depth..][0];
      PassClears(next, acts[1..], t, depth, f);
    }
  }

  lemma {:induction false} OpenOrEnded(hist: seq<Note>, more: seq<Note>, id: nat)
    requires Life(hist, id).Open? && Life(hist + more, id) != Wrong
    ensures Life(hist + more, id) == Life(hist, id) || Life(hist + more, id) == Ended
    decreases |more|
  {
    if more == [] {
      assert hist + more == hist;
    } else {
      var m := |more| - 1;
      LifeNext(hist + more[..m], more[m], id);
      assert hist + more == hist + more[..m] + [more[m]];
      OpenOrEnded(hist, more[..m], id);
    }
  }

  lemma {:induction false} EndedForGood(hist: seq<Note>, more: seq<Note>, id: nat)
    requires Life(hist, id) == Ended && Life(hist + more, id) != Wrong
    ensures Life(hist + more, id) == Ended
    decreases |more|
  {
    if more == [] {
      assert hist + more == hist;
    } else {
      var m := |more| - 1;
      LifeNext(hist + more[..m], more[m], id);
      assert hist + more == hist + more[..m] + [more[m]];
      EndedForGood(hist, more[..m], id);
    }
  }

  // A request that has ended stays so whatever happens, and an answer to it
  // that comes at any time later changes nothing.
  lemma LateAnswerIsIgnored(s: State, id: nat, acts: seq<Action>, t: State)
    requires Reachable(s) && Life(s.hist, id) == Ended && Run(s, acts, t)
    ensures Life(t.hist, id) == Ended && Do(t, Respond(id)) == t
  {
    ReachableInv(s);
    RunKeeps(s, acts, t);
    RunGrows(s, acts, t);
    assert Tracks(t, id);
    assert t.hist == s.hist + t.hist[|s.hist|..];
    EndedForGood(s.hist, t.hist[|s.hist|..], id);
    assert forall j :: 0 <= j < |t.calls| ==> t.calls[j] in t.calls;
  }

  // Every request that is late when a pass begins has ended when it is over,
  // whatever happened in between.
  lemma PassEndsAll(s: State, acts: seq<Action>, t: State, c: Call)
    requires Inv(s) && s.stack != [] && s.stack[0].Expiring? && Within(s, acts, t, |s.stack|)
    requires c in s.calls && c.deadline <= s.stack[0].now
    ensures Life(t.hist, c.id) == Ended
  {
    PassClears(s, acts, t, |s.stack|, s.stack[0]);
    WithinRuns(s, acts, t, |s.stack|);
    RunKeeps(s, acts, t);
    RunGrows(s, acts, t);
    assert Tracks(s, c.id) && Tracks(t, c.id);
    assert Life(s.hist, c.id) == Open(c);
    assert t.hist == s.hist + t.hist[|s.hist|..];
    OpenOrEnded(s.hist, t.hist[|s.hist|..], c.id);
  }

  // ----- The timer ----------------------------------------------------------

  // The handler of c has not returned yet, and c is none of the timer's
  // business until it has.
  ghost predicate Handled(s: State, id: nat) {
    exists i :: 0 <= i < |s.stack| && s.stack[i] == Handling(id)
  }

  ghost predicate IsTimerPass(f: Frame) { f.Expiring? && f.timer }

  ghost predicate TimerPass(s: State) {
    exists i :: 0 <= i < |s.stack| && IsTimerPass(s.stack[i])
  }

  // No request is left waiting past its deadline: the timer is set for no
  // later, or its own pass is under way and will set it.
  ghost predicate Watched(s: State) {
    forall c :: c in s.calls && !Handled(s, c.id) ==>
      if s.armed.Some? then s.armed.value <= c.deadline else TimerPass(s)
  }

  // A handler is run once for each request.
  ghost predicate OneHandler(s: State) {
    && (forall i :: 0 <= i < |s.stack| && s.stack[i].Handling? ==> s.stack[i].id <= s.last)
    && (forall i, j :: 0 <= i < j < |s.stack| && s.stack[i].Handling? ==> s.stack[i] != s.stack[j])
  }

  // The request whose handler now returns, unanswered, is due before the time
  // the timer is already set for.
  ghost predicate Overtakes(s: State, a: Action)
    requires Enabled(s, a)
  {
    && a == Return(false) && s.armed.Some?
    && exists c :: c in s.calls && c.id == s.stack[0].id && c.deadline < s.armed.value
  }

  lemma HandledPush(s: State, f: Frame, id: nat)
    ensures Handled(s.(stack := [f] + s.stack), id) <==> Handled(s, id) || f == Handling(id)
  {
    var t := s.(stack := [f] + s.stack);
    assert t.stack[0] == f;
    assert forall i :: 0 <= i < |s.stack| ==> t.stack[i + 1] == s.stack[i];
  }

  lemma HandledPop(s: State, t: State, id: nat)
    requires s.stack != [] && t.stack == s.stack[1..]
    ensures Handled(s, id) <==> Handled(t, id) || s.stack[0] == Handling(id)
  {
    HandledPush(t, s.stack[0], id);
    assert [s.stack[0]] + t.stack == s.stack;
  }

  lemma PassPush(s: State, f: Frame)
    ensures TimerPass(s.(stack := [f] + s.stack)) <==> TimerPass(s) || IsTimerPass(f)
  {
    var t := s.(stack := [f] + s.stack);
    assert t.stack[0] == f;
    assert forall i :: 0 <= i < |s.stack| ==> t.stack[i + 1] == s.stack[i];
  }

  lemma PassPop(s: State, t: State)
    requires s.stack != [] && t.stack == s.stack[1..]
    ensures TimerPass(s) <==> TimerPass(t) || IsTimerPass(s.stack[0])
  {
    PassPush(t, s.stack[0]);
    assert [s.stack[0]] + t.stack == s.stack;
  }

  // The same stack and timer, no new request.
  lemma FewerWatched(s: State, t: State)
    requires Watched(s) && t.stack == s.stack && t.armed == s.armed && forall c :: c in t.calls ==> c in s.calls
    ensures Watched(t)
  {
    assert TimerPass(t) == TimerPass(s);
    forall c | c in t.calls ensures Handled(t, c.id) == Handled(s, c.id) {
    }
  }

  // A handler returns without an answer.
  lemma ReturnWatched(s: State, a: Action)
    requires Inv(s) && OneHandler(s) && Watched(s) && Enabled(s, a) && a == Return(false)
    ensures Watched(Do(s, a)) <==> !Overtakes(s, a)
  {
    var t, r := Do(s, a), s.(stack := s.stack[1..]);
    var id := s.stack[0].id;
    assert t.calls == s.calls && t.stack == r.stack;
    EarliestIs(s.calls);
    PassPop(s, t);
    assert !Handled(t, id);
    forall c | c in t.calls ensures Handled(t, c.id) <==> Handled(s, c.id) && c.id != id {
      HandledPop(s, t, c.id);
    }
    if Overtakes(s, a) {
      var c :| c in s.calls && c.id == id && c.deadline < s.armed.value;
      assert !Handled(t, c.id);
    }
  }

  // A handler returns and its request, if still open, is answered.
  lemma DoneWatched(s: State, a: Action)
    requires Inv(s) && OneHandler(s) && Watched(s) && Enabled(s, a) && a == Return(true)
    ensures Watched(Do(s, a))
  {
    var t := Do(s, a);
    var id := s.stack[0].id;
    var i := Find(s.calls, id);
    if i < |s.calls| { WithoutIs(s.calls, i); }
    PassPop(s, t);
    forall c | c in t.calls && !Handled(t, c.id)
      ensures if t.armed.Some? then t.armed.value <= c.deadline else TimerPass(t)
    {
      HandledPop(s, t, c.id);
      assert c in s.calls;
      assert c.id != id;
    }
  }

  lemma ExpireWatched(s: State, a: Action)
    requires Inv(s) && Watched(s) && Enabled(s, a) && a == ExpireNext
    ensures Watched(Do(s, a))
  {
    var t := Do(s, a);
    var i := Late(s.calls, s.stack[0].now);
    if i < |s.calls| {
      WithoutIs(s.calls, i);
      FewerWatched(s, t);
    } else {
      PassPop(s, t);
      EarliestIs(s.calls);
      forall c | c in t.calls ensures Handled(t, c.id) == Handled(s, c.id) { HandledPop(s, t, c.id); }
    }
  }

  // Every open request stays watched across a step if and only if the step is
  // not the return of a handler whose request is due before the time the timer
  // is set for: the timer is not moved.
  lemma WatchedIff(s: State, a: Action)
    requires Inv(s) && OneHandler(s) && Watched(s) && Enabled(s, a)
    ensures Watched(Do(s, a)) <==> !Overtakes(s, a)
  {
    var t := Do(s, a);
    match a
    case Dispatch(pid, mod, deadline) =>
      if s.listening {
        PassPush(s, Handling(s.last + 1));
        forall id ensures Handled(t, id) <==> Handled(s, id) || id == s.last + 1 {
          HandledPush(s, Handling(s.last + 1), id);
        }
        assert t.stack == s.(stack := [Handling(s.last + 1)] + s.stack).stack;
        assert TimerPass(t) == TimerPass(s);
      }
    case Return(done) => if done { DoneWatched(s, a); } else { ReturnWatched(s, a); }
    case Respond(id) =>
      var i := Find(s.calls, id);
      if i < |s.calls| { WithoutIs(s.calls, i); }
      FewerWatched(s, t);
    case Expire(now) => PushWatched(s, t, Expiring(now, false));
    case Timer(now) =>
      assert IsTimerPass(t.stack[0]);
    case ExpireNext => ExpireWatched(s, a);
    case DropModule(_) =>
      StepAside(s, a);
      FewerWatched(s, t);
    case Listen => FewerWatched(s, t);
    case StopListening =>
      StepAside(s, a);
      FewerWatched(s, t);
  }

  lemma PushWatched(s: State, t: State, f: Frame)
    requires Watched(s) && f.Expiring? && t.calls == s.calls && t.armed == s.armed && t.stack == [f] + s.stack
    ensures Watched(t)
  {
    PassPush(s, f);
    assert TimerPass(t) == TimerPass(s.(stack := t.stack));
    forall c | c in t.calls ensures Handled(t, c.id) == Handled(s, c.id) {
      HandledPush(s, f, c.id);
      assert Handled(t, c.id) == Handled(s.(stack := t.stack), c.id);
    }
  }

  lemma StepOneHandler(s: State, a: Action)
    requires Enabled(s, a) && OneHandler(s)
    ensures OneHandler(Do(s, a))
  {
    var t := Do(s, a);
    if a.DropModule? { DropsAside(s, 0, a.mod); }
    if a.StopListening? { SilencedLast(s.(listening := false)); }
    if t.stack != [] && t.stack[1..] == s.stack {
      assert forall i :: 0 < i < |t.stack| ==> t.stack[i] == s.stack[i - 1];
    }
    if s.stack != [] && t.stack == s.stack[1..] {
      assert forall i :: 0 <= i < |t.stack| ==> t.stack[i] == s.stack[i + 1];
    }
    assert t.stack == s.stack || (t.stack != [] && t.stack[1..] == s.stack)
        || (s.stack != [] && t.stack == s.stack[1..]);
    assert s.last <= t.last;
  }

  ghost predicate InOrder(s: State, acts: seq<Action>)
    decreases |acts|
  {
    acts == [] || (Enabled(s, acts[0]) && !Overtakes(s, acts[0]) && InOrder(Do(s, acts[0]), acts[1..]))
  }

  lemma {:induction false} RunWatched(s: State, acts: seq<Action>, t: State)
    requires Inv(s) && OneHandler(s) && Watched(s) && Run(s, acts, t) && InOrder(s, acts)
    ensures Watched(t)
    decreases |acts|
  {
    if acts != [] {
      WatchedIff(s, acts[0]);
      StepKeeps(s, acts[0]);
      StepOneHandler(s, acts[0]);
      RunWatched(Do(s, acts[0]), acts[1..], t);
    }
  }

  lemma OneStep(s: State, a: Action, next: State, acts: seq<Action>, t: State)
    requires Enabled(s, a) && Do(s, a) == next && Run(next, acts, t)
    ensures Run(s, [a] + acts, t)
  {
    assert ([a] + acts)[1..] == acts;
  }

  // Two requests, the second with a shorter time to be answered in: it is due
  // at 50 while the timer waits for 100.
  lemma DeadlineOvertaken() returns (acts: seq<Action>, t: State)
    ensures Run(Start, acts, t) && t.armed == Some(100) && Earliest(t.calls) == 50 && !Watched(t)
  {
    var c1, c2 := Call(1, 7, 3, 100), Call(2, 8, 3, 50);
    var s1 := Start.(listening := true);
    var s2 := State([c1], true, 1, 1, None, [Handling(1)], [Began(1, c1)]);
    var s3 := State([c1], true, 1, 1, Some(100), [], [Began(1, c1)]);
    var s4 := State([c2, c1], true, 2, 2, Some(100), [Handling(2)], [Began(1, c1), Began(2, c2)]);
    t := s4.(stack := []);
    assert [c2, c1][1..] == [c1] && [c1][1..] == [];
    assert Earliest([c1]) == 100 && Earliest([c2, c1]) == 50;
    OneStep(s4, Return(false), t, [], t);
    acts := [Return(false)] + [];
    OneStep(s3, Dispatch(8, 3, 50), s4, acts, t);
    acts := [Dispatch(8, 3, 50)] + acts;
    OneStep(s2, Return(false), s3, acts, t);
    acts := [Return(false)] + acts;
    OneStep(s1, Dispatch(7, 3, 100), s2, acts, t);
    acts := [Dispatch(7, 3, 100)] + acts;
    OneStep(Start, Listen, s1, acts, t);
    acts := [Listen] + acts;
    assert c2 in t.calls && !Handled(t, c2.id);
  }
}
