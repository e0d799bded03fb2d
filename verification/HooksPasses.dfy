/**
 * A pass over the holds - of those that are late, or of those a module leaves
 * behind - from its beginning to its end, with everything its callbacks do.
 */
module HooksPasses {
  import opened Hooks
  import opened HooksRuns
  import opened HooksTheorems
  import opened HooksExits

  // A run during which the stack is never lower than `depth`, until its last
  // step, which takes it below.
  ghost predicate Within(s: State, acts: seq<Action>, t: State, depth: nat)
    decreases |acts|
  {
    if acts == [] then
      t == s && |s.stack| < depth
    else
      |s.stack| >= depth && Enabled(s, acts[0]) && Within(Do(s, acts[0]), acts[1..], t, depth)
  }

  // What a pass is about.
  function About(f: Frame): Test
    requires !f.Running?
  {
    if f.Expiring? then Due(f.now) else OwedBy(f.mod)
  }

  lemma {:induction false} WithinRuns(s: State, acts: seq<Action>, t: State, depth: nat)
    requires Within(s, acts, t, depth)
    ensures Run(s, acts, t)
    decreases |acts|
  {
    if acts != [] {
      WithinRuns(Do(s, acts[0]), acts[1..], t, depth);
    }
  }

  // A step leaves what is below the top alone.
  lemma BelowStays(s: State, a: Action, depth: nat)
    requires Enabled(s, a) && 0 < depth <= |s.stack|
    ensures var t := Do(s, a);
            && |t.stack| >= depth - 1
            && (|t.stack| >= depth ==> t.stack[|t.stack| - depth..] == s.stack[|s.stack| - depth..])
    ensures |Do(s, a).stack| < depth ==> |s.stack| == depth && (a.Return? || a.Go?)
  {
    if a.Cancel? { CancelledGrows(s, 0, a.who); }
  }

  // The turn in which a pass ends finds nothing more to refuse.
  lemma LastTurn(s: State, a: Action)
    requires Enabled(s, a) && s.stack != [] && !s.stack[0].Running? && |Do(s, a).stack| < |s.stack|
    ensures forall h :: h in Do(s, a).holds ==> !Passes(h, About(s.stack[0]))
  {
    if a.Cancel? { CancelledGrows(s, 0, a.who); }
    var i := First(s.holds, About(s.stack[0]));
    assert a.Go?;
    forall h | h in Do(s, a).holds ensures !Passes(h, About(s.stack[0])) {
      var j :| 0 <= j < |s.holds| && s.holds[j] == h;
    }
  }

  lemma {:induction false} PassClears(s: State, acts: seq<Action>, t: State, depth: nat, f: Frame)
    requires 0 < depth <= |s.stack| && s.stack[|s.stack| - depth] == f && !f.Running? && Within(s, acts, t, depth)
    ensures forall h :: h in t.holds ==> !Passes(h, About(f))
    decreases |acts|
  {
    var next := Do(s, acts[0]);
    BelowStays(s, acts[0], depth);
    if |next.stack| < depth {
      LastTurn(s, acts[0]);
      assert acts[1..] == [];
    } else {
      assert next.stack[|next.stack| - depth] == next.stack[|next.stack| - depth..][0];
      PassClears(next, acts[1..], t, depth, f);
    }
  }

  // Every hold a pass is about when it begins has ended when it is over,
  // whatever its callbacks did in between.
  lemma PassEndsAll(s: State, acts: seq<Action>, t: State, h: Hold)
    requires Inv(s) && s.stack != [] && !s.stack[0].Running? && Within(s, acts, t, |s.stack|)
    requires h in s.holds && Passes(h, About(s.stack[0]))
    ensures Life(t.hist, h.op).Settled?
  {
    PassClears(s, acts, t, |s.stack|, s.stack[0]);
    WithinRuns(s, acts, t, |s.stack|);
    RunKeeps(s, acts, t);
    RunGrows(s, acts, t);
    assert Tracks(s, h.op) && Tracks(t, h.op);
    assert Life(s.hist, h.op) == Waiting(h);
    assert t.hist == s.hist + t.hist[|s.hist|..];
    WaitsOrEnds(s.hist, t.hist[|s.hist|..], h.op);
  }

  // And it can always come to its end.
  lemma PassCanEnd(s: State) returns (acts: seq<Action>, t: State)
    requires Inv(s) && s.stack != [] && !s.stack[0].Running?
    ensures Within(s, acts, t, |s.stack|)
    decreases |s.holds|
  {
    var next := Do(s, Go);
    StepKeeps(s, Go);
    var rest := [];
    t := next;
    if next.stack == s.stack {
      rest, t := PassCanEnd(next);
    }
    acts := [Go] + rest;
    assert acts[1..] == rest;
  }
}
