/**
 * What becomes of the results a driver delivers.
 */
module DbResults {
  import opened Options
  import opened Db
  import opened DbTheorems

  // Never delivered, out with its callback, or done with: back with a driver,
  // or with none.
  datatype Fate = Never | Out(from: nat) | Done(from: nat, to: Option<nat>) | Muddle

  function Fares(f: Fate, r: nat, n: Note): Fate {
    match n
    case Delivered(x, from) => if x != r then f else if f == Never then Out(from) else Muddle
    case Released(x, to) => if x != r then f else if f.Out? then Done(f.from, Some(to)) else Muddle
    case Leaked(x) => if x != r then f else if f.Out? then Done(f.from, None) else Muddle
    case _ => f
  }

  function FateOf(hist: seq<Note>, r: nat): Fate {
    if hist == [] then Never else Fares(FateOf(hist[..|hist| - 1], r), r, hist[|hist| - 1])
  }

  lemma FateNext(hist: seq<Note>, n: Note, r: nat)
    ensures FateOf(hist + [n], r) == Fares(FateOf(hist, r), r, n)
  {
    assert (hist + [n])[..|hist|] == hist;
  }

  ghost predicate Running(s: State, r: nat) {
    exists i :: 0 <= i < |s.stack| && s.stack[i] == Calling(Some(r))
  }

  ghost predicate Follows(s: State, r: nat) {
    match FateOf(s.hist, r)
    case Never => r >= s.results && !Running(s, r)
    case Out(_) => r < s.results && Running(s, r)
    case Done(_, _) => r < s.results && !Running(s, r)
    case Muddle => false
  }

  predicate Carries(f: Frame) { f.Calling? && f.result.Some? }

  ghost predicate ResultInv(s: State) {
    && (forall i, j :: 0 <= i < j < |s.stack| && Carries(s.stack[i]) ==> s.stack[i] != s.stack[j])
    && forall r :: Follows(s, r)
  }

  lemma RunningPush(s: State, f: Frame, r: nat)
    ensures Running(Push(s, f), r) <==> Running(s, r) || f == Calling(Some(r))
  {
    var t := Push(s, f);
    assert t.stack[0] == f;
    assert forall i :: 0 <= i < |s.stack| ==> t.stack[i + 1] == s.stack[i];
  }

  // The same results out, and notes that are not about results.
  lemma ResultsAside(s: State, t: State)
    requires ResultInv(s) && t.results == s.results
    requires forall r :: FateOf(t.hist, r) == FateOf(s.hist, r)
    requires t.stack == s.stack
          || (t.stack != [] && t.stack[1..] == s.stack && !Carries(t.stack[0]))
          || (s.stack != [] && s.stack[1..] == t.stack && !Carries(s.stack[0]))
    ensures ResultInv(t)
  {
    forall r ensures Running(t, r) <==> Running(s, r) {
      if t.stack == s.stack {
      } else if t.stack != [] && t.stack[1..] == s.stack {
        RunningPush(s, t.stack[0], r);
        assert Push(s, t.stack[0]).stack == t.stack;
      } else {
        RunningPush(t, s.stack[0], r);
        assert Push(t, s.stack[0]).stack == s.stack;
      }
    }
    forall r ensures Follows(t, r) {
      assert Follows(s, r);
    }
  }

  predicate AboutResult(n: Note) { n.Delivered? || n.Released? || n.Leaked? }

  lemma PlainNote(s: State, n: Note)
    requires !AboutResult(n)
    ensures forall r :: FateOf(s.hist + [n], r) == FateOf(s.hist, r)
  {
    forall r ensures FateOf(s.hist + [n], r) == FateOf(s.hist, r) {
      FateNext(s.hist, n, r);
    }
  }

  lemma {:induction false} DropsPlain(s: State, k: nat, mod: nat)
    requires k <= |s.calls|
    ensures var t := Drops(s, k, mod);
            t.results == s.results && t.stack == s.stack && forall r :: FateOf(t.hist, r) == FateOf(s.hist, r)
    decreases |s.calls| - k
  {
    if k < |s.calls| {
      if s.calls[k].owner == Some(mod) {
        PlainNote(s, Dropped(s.calls[k].id, mod));
        DropsPlain(Take(s, k, Dropped(s.calls[k].id, mod)), k, mod);
      } else {
        DropsPlain(s, k + 1, mod);
      }
    }
  }

  // Delivered to a callback.
  lemma DeliverKeeps(s: State, t: State, from: nat)
    requires ResultInv(s) && t.results == s.results + 1
    requires t.hist == s.hist + [Delivered(s.results, from)] && t.stack == [Calling(Some(s.results))] + s.stack
    ensures ResultInv(t)
  {
    forall r ensures Follows(t, r) {
      assert Follows(s, r);
      FateNext(s.hist, Delivered(s.results, from), r);
      RunningPush(s, Calling(Some(s.results)), r);
      assert Running(t, r) <==> Running(Push(s, Calling(Some(s.results))), r);
    }
    assert Follows(s, s.results);
    forall j | 0 < j < |t.stack| ensures t.stack[j] != t.stack[0] {
      assert t.stack[j] == s.stack[j - 1];
    }
    assert forall i :: 0 < i < |t.stack| ==> t.stack[i] == s.stack[i - 1];
  }

  predicate Ends(n: Note, r: nat) { (n.Released? || n.Leaked?) && n.result == r }

  // Delivered to nobody: done with at once.
  lemma PassedKeeps(s: State, t: State, from: nat, n: Note)
    requires ResultInv(s) && t.results == s.results + 1 && t.stack == s.stack && Ends(n, s.results)
    requires t.hist == s.hist + [Delivered(s.results, from)] + [n]
    ensures ResultInv(t) && FateOf(t.hist, s.results).Done?
  {
    forall r ensures Follows(t, r) && (r == s.results ==> FateOf(t.hist, r).Done?) {
      assert Follows(s, r);
      FateNext(s.hist, Delivered(s.results, from), r);
      FateNext(s.hist + [Delivered(s.results, from)], n, r);
      assert Running(t, r) == Running(s, r);
    }
  }

  lemma FinishResults(s: State, id: nat, data: Option<nat>)
    requires ResultInv(s)
    ensures ResultInv(Finish(s, id, data))
  {
    var i := Find(s.calls, id);
    var s1, t := s, Finish(s, id, data);
    if i < |s.calls| {
      PlainNote(s, Completed(id, s.calls[i].wants));
      s1 := Take(s, i, Completed(id, s.calls[i].wants));
      ResultsAside(s, s1);
    }
    if data.None? {
      ResultsAside(s1, t);
    } else if i < |s.calls| && s.calls[i].wants {
      DeliverKeeps(s1, t, data.value);
    } else {
      PassedKeeps(s1, t, data.value, t.hist[|t.hist| - 1]);
    }
  }

  // Done with when its callback returns.
  lemma ReturnKeeps(s: State, t: State, x: nat, n: Note)
    requires ResultInv(s) && t.results == s.results && Ends(n, x)
    requires s.stack != [] && s.stack[0] == Calling(Some(x)) && t.stack == s.stack[1..] && t.hist == s.hist + [n]
    ensures ResultInv(t)
  {
    assert Running(s, x);
    assert forall i :: 0 <= i < |t.stack| ==> t.stack[i] == s.stack[i + 1];
    forall r ensures Follows(t, r) {
      assert Follows(s, r);
      FateNext(s.hist, n, r);
      RunningPush(t, s.stack[0], r);
      assert Push(t, s.stack[0]).stack == s.stack;
    }
  }

  lemma ReleaseResults(s: State)
    requires ResultInv(s) && Enabled(s, Release)
    ensures ResultInv(Do(s, Release))
  {
    if s.stack[0].result.None? {
      ResultsAside(s, Pop(s));
    } else {
      var t := Do(s, Release);
      ReturnKeeps(s, t, s.stack[0].result.value, t.hist[|s.hist|]);
    }
  }

  lemma StepResults(s: State, a: Action)
    requires ResultInv(s) && Enabled(s, a)
    ensures ResultInv(Do(s, a))
  {
    var t := Do(s, a);
    match a
    case Submit(owner, wants) =>
      if s.driver.Some? && s.configured {
        PlainNote(s, Placed(s.next, Call(s.next, wants, owner)));
        ResultsAside(s, t);
      }
    case Answer(ok) =>
      PlainNote(s, Withdrawn(s.stack[0].id));
      ResultsAside(s, t);
    case Complete(id, data) => FinishResults(s, id, data);
    case Release => ReleaseResults(s);
    case FailNext =>
      if s.calls != [] {
        PlainNote(s, Failed(s.calls[0].id, s.calls[0].wants));
      }
      ResultsAside(s, t);
    case DropModule(mod) =>
      DropsPlain(s, 0, mod);
      ResultsAside(s, t);
    case Register(_) => ResultsAside(s, t);
    case Unregister(_) => ResultsAside(s, t);
    case Configure(_) => ResultsAside(s, t);
  }

  lemma {:induction false} RunResults(s: State, acts: seq<Action>, t: State)
    requires ResultInv(s) && Run(s, acts, t)
    ensures ResultInv(t)
    decreases |acts|
  {
    if acts != [] {
      StepResults(s, acts[0]);
      RunResults(Do(s, acts[0]), acts[1..], t);
    }
  }

  lemma ReachableResults(s: State)
    requires Reachable(s)
    ensures ResultInv(s)
  {
    var acts :| Run(Start, acts, s);
    assert ResultInv(Start);
    RunResults(Start, acts, s);
  }

  // Every result delivered is out with its callback or done with once, never
  // twice and never forgotten.
  lemma ResultsEndOnce(s: State, r: nat)
    requires Reachable(s) && r < s.results
    ensures if Running(s, r) then FateOf(s.hist, r).Out? else FateOf(s.hist, r).Done?
  {
    ReachableResults(s);
    assert Follows(s, r);
  }

  // A callback is left to run.
  predicate HasCallback(s: State, id: nat) { exists c :: c in s.calls && c.id == id && c.wants }

  // A result nobody is left to look at - the call was dropped with its module,
  // was failed before, or wants no callback - is done with on the spot.
  lemma DroppedResultEndsAtOnce(s: State, id: nat, from: nat)
    requires Reachable(s) && from < s.drivers && !HasCallback(s, id)
    ensures var t := Do(s, Complete(id, Some(from)));
            t.stack == s.stack && FateOf(t.hist, s.results)
              == Done(from, if s.driver.Some? then Some(s.driver.value.nth) else None)
  {
    ReachableResults(s);
    var i := Find(s.calls, id);
    assert i < |s.calls| ==> s.calls[i] in s.calls;
    var hist := s.hist;
    if i < |s.calls| {
      PlainNote(s, Completed(id, s.calls[i].wants));
      hist := s.hist + [Completed(id, s.calls[i].wants)];
    }
    assert Follows(s, s.results);
    var n := if s.driver.Some? then Released(s.results, s.driver.value.nth) else Leaked(s.results);
    PassedFate(hist, s.results, from, n);
    assert Do(s, Complete(id, Some(from))).hist == hist + [Delivered(s.results, from)] + [n];
  }

  lemma PassedFate(hist: seq<Note>, r: nat, from: nat, n: Note)
    requires FateOf(hist, r) == Never && Ends(n, r)
    ensures FateOf(hist + [Delivered(r, from)] + [n], r) == Done(from, if n.Released? then Some(n.to) else None)
  {
    FateNext(hist, Delivered(r, from), r);
    FateNext(hist + [Delivered(r, from)], n, r);
  }

  // ----- Back to the driver it came from ------------------------------------

  predicate Is(s: State, nth: nat) { s.driver.Some? && s.driver.value.nth == nth }

  // A driver that is gone is gone for good; another may take its place.
  lemma GoneForGood(s: State, a: Action, nth: nat)
    requires Enabled(s, a) && nth < s.drivers && !Is(s, nth)
    ensures nth < Do(s, a).drivers && !Is(Do(s, a), nth)
  {
    if a.DropModule? {
      DropsStack(s, 0, a.gone);
    }
  }

  // The driver is there at every moment of the run.
  ghost predicate Stays(s: State, acts: seq<Action>, nth: nat)
    decreases |acts|
  {
    Is(s, nth) && (acts == [] || (Enabled(s, acts[0]) && Stays(Do(s, acts[0]), acts[1..], nth)))
  }

  lemma {:induction false} StaysIff(s: State, acts: seq<Action>, t: State, nth: nat)
    requires Run(s, acts, t) && nth < s.drivers
    ensures Stays(s, acts, nth) <==> Is(t, nth)
    decreases |acts|
  {
    if acts != [] {
      var next := Do(s, acts[0]);
      DriversGrow(s, acts[0]);
      if Is(s, nth) {
        if !Is(next, nth) { NeverAgain(next, acts[1..], t, nth); }
      } else {
        NeverAgain(s, acts, t, nth);
      }
      StaysIff(next, acts[1..], t, nth);
    }
  }

  lemma DriversGrow(s: State, a: Action)
    requires Enabled(s, a)
    ensures s.drivers <= Do(s, a).drivers
  {
    if a.DropModule? {
      DropsStack(s, 0, a.gone);
    }
  }

  lemma {:induction false} NeverAgain(s: State, acts: seq<Action>, t: State, nth: nat)
    requires Run(s, acts, t) && nth < s.drivers && !Is(s, nth)
    ensures !Is(t, nth)
    decreases |acts|
  {
    if acts != [] {
      GoneForGood(s, acts[0], nth);
      NeverAgain(Do(s, acts[0]), acts[1..], t, nth);
    }
  }

  // The step that ends a callback gives its result to the driver of that moment.
  lemma CallbackLast(s: State, r: nat)
    requires s.stack != [] && s.stack[0] == Calling(Some(r)) && FateOf(s.hist, r).Out?
    ensures var t := Do(s, Release);
            && t.driver == s.driver
            && FateOf(t.hist, r)
               == Done(FateOf(s.hist, r).from, if s.driver.Some? then Some(s.driver.value.nth) else None)
  {
    FateNext(s.hist, if s.driver.Some? then Released(r, s.driver.value.nth) else Leaked(r), r);
  }

  lemma {:induction false} CallbackEnds(s: State, acts: seq<Action>, t: State, depth: nat, r: nat)
    requires ResultInv(s) && 0 < depth <= |s.stack| && s.stack[|s.stack| - depth] == Calling(Some(r))
    requires Within(s, acts, t, depth) && FateOf(s.hist, r).Out?
    ensures FateOf(t.hist, r) == Done(FateOf(s.hist, r).from, if t.driver.Some? then Some(t.driver.value.nth) else None)
    decreases |acts|
  {
    var next := Do(s, acts[0]);
    BelowStays(s, acts[0], depth);
    if |next.stack| < depth {
      assert acts[0] == Release;
      CallbackLast(s, r);
    } else {
      StepResults(s, acts[0]);
      assert next.stack[|next.stack| - depth] == next.stack[|next.stack| - depth..][0];
      StillOut(s, acts[0], r);
      CallbackEnds(next, acts[1..], t, depth, r);
    }
  }

  lemma {:induction false} OutStays(hist: seq<Note>, more: seq<Note>, r: nat)
    requires FateOf(hist, r).Out?
    ensures FateOf(hist + more, r).Out? ==> FateOf(hist + more, r) == FateOf(hist, r)
    ensures FateOf(hist + more, r) != Never
    decreases |more|
  {
    if more == [] {
      assert hist + more == hist;
    } else {
      var m := |more| - 1;
      OutStays(hist, more[..m], r);
      FateNext(hist + more[..m], more[m], r);
      assert hist + more == hist + more[..m] + [more[m]];
    }
  }

  lemma {:induction false} DropsGrow(s: State, k: nat, mod: nat)
    requires k <= |s.calls|
    ensures s.hist <= Drops(s, k, mod).hist
    decreases |s.calls| - k
  {
    if k < |s.calls| {
      if s.calls[k].owner == Some(mod) {
        DropsGrow(Take(s, k, Dropped(s.calls[k].id, mod)), k, mod);
      } else {
        DropsGrow(s, k + 1, mod);
      }
    }
  }

  lemma StepGrows(s: State, a: Action)
    requires Enabled(s, a)
    ensures s.hist <= Do(s, a).hist
  {
    if a.DropModule? {
      DropsGrow(s, 0, a.gone);
    }
  }

  // A result that is still out after a step came from where it came from.
  lemma StillOut(s: State, a: Action, r: nat)
    requires ResultInv(s) && Enabled(s, a) && FateOf(s.hist, r).Out? && Running(Do(s, a), r)
    ensures FateOf(Do(s, a).hist, r) == FateOf(s.hist, r)
  {
    var t := Do(s, a);
    StepResults(s, a);
    StepGrows(s, a);
    assert Follows(s, r) && Follows(t, r);
    assert t.hist == s.hist + t.hist[|s.hist|..];
    OutStays(s.hist, t.hist[|s.hist|..], r);
  }

  // The result of a callback goes back to the driver that delivered it if and
  // only if that driver is the registered one when it delivers and is not
  // withdrawn before the callback returns. Another that has taken its place by
  // then gets it instead, and without any it is lost.
  lemma BackToItsOwnIff(s: State, id: nat, from: nat, acts: seq<Action>, t: State)
    requires Reachable(s) && from < s.drivers && HasCallback(s, id)
    requires Within(Do(s, Complete(id, Some(from))), acts, t, |s.stack| + 1)
    ensures FateOf(t.hist, s.results) == Done(from, if t.driver.Some? then Some(t.driver.value.nth) else None)
    ensures FateOf(t.hist, s.results) == Done(from, Some(from)) <==>
              Is(s, from) && Stays(Do(s, Complete(id, Some(from))), acts, from)
  {
    ReachableInv(s);
    ReachableResults(s);
    var a := Complete(id, Some(from));
    var s1 := Do(s, a);
    StepResults(s, a);
    var c :| c in s.calls && c.id == id && c.wants;
    var i := Find(s.calls, id);
    assert s.calls[i] == c;
    assert s1.stack == [Calling(Some(s.results))] + s.stack;
    assert Follows(s1, s.results) && Running(s1, s.results);
    FateNext(s.hist + [Completed(id, true)], Delivered(s.results, from), s.results);
    FateNext(s.hist, Completed(id, true), s.results);
    assert Follows(s, s.results);
    CallbackEnds(s1, acts, t, |s.stack| + 1, s.results);
    WithinRuns(s1, acts, t, |s.stack| + 1);
    StaysIff(s1, acts, t, from);
  }

  // A callback withdraws the driver: its result is lost.
  lemma LeakHappens() returns (acts: seq<Action>, t: State)
    ensures acts == [Register(None), Configure(true), Submit(None, true), Answer(true), Complete(1, Some(0)),
                     Unregister(None), FailNext, Release]
    ensures Run(Start, acts, t) && FateOf(t.hist, 0) == Done(0, None)
  {
    var c, d := Call(1, true, None), Driver(None, 0);
    var h := [Placed(1, c), Completed(1, true), Delivered(0, 0)];
    var s5 := State([], Some(d), 1, true, 2, 1, 0, [Calling(Some(0))], h);
    var s6 := s5.(driver := None, stack := [Failing, Calling(Some(0))]);
    var s7 := s6.(stack := [Calling(Some(0))]);
    t := s7.(stack := [], hist := h + [Leaked(0)]);
    OneStep(s7, Release, t, [], t);
    OneStep(s6, FailNext, s7, [Release] + [], t);
    OneStep(s5, Unregister(None), s6, [FailNext] + ([Release] + []), t);
    acts := LeakFirst(s5, [Unregister(None)] + ([FailNext] + ([Release] + [])), t);
    FateNext([], Placed(1, c), 0);
    FateNext([Placed(1, c)], Completed(1, true), 0);
    FateNext([Placed(1, c), Completed(1, true)], Delivered(0, 0), 0);
    FateNext(h, Leaked(0), 0);
    assert [] + [Placed(1, c)] == [Placed(1, c)];
    assert [Placed(1, c)] + [Completed(1, true)] == [Placed(1, c), Completed(1, true)];
    assert [Placed(1, c), Completed(1, true)] + [Delivered(0, 0)] == h;
  }

  lemma LeakFirst(s5: State, rest: seq<Action>, t: State) returns (acts: seq<Action>)
    requires s5 == State([], Some(Driver(None, 0)), 1, true, 2, 1, 0, [Calling(Some(0))],
                         [Placed(1, Call(1, true, None)), Completed(1, true), Delivered(0, 0)])
    requires Run(s5, rest, t)
    ensures acts == [Register(None), Configure(true), Submit(None, true), Answer(true), Complete(1, Some(0))] + rest
    ensures Run(Start, acts, t)
  {
    var c, d := Call(1, true, None), Driver(None, 0);
    var s1 := Start.(driver := Some(d), drivers := 1);
    var s2 := s1.(configured := true);
    var s3 := State([c], Some(d), 1, true, 2, 0, 1, [Submitting(1)], [Placed(1, c)]);
    var s4 := s3.(stack := []);
    OneStep(s4, Complete(1, Some(0)), s5, rest, t);
    acts := [Complete(1, Some(0))] + rest;
    OneStep(s3, Answer(true), s4, acts, t);
    acts := [Answer(true)] + acts;
    OneStep(s2, Submit(None, true), s3, acts, t);
    acts := [Submit(None, true)] + acts;
    OneStep(s1, Configure(true), s2, acts, t);
    acts := [Configure(true)] + acts;
    OneStep(Start, Register(None), s1, acts, t);
    acts := [Register(None)] + acts;
  }
}
