/**
 * Holds told from what happened: for the operation one call asked about and
 * one module put off, which answer, deadline, unload or exit may end it, and
 * which must, in terms of those two events and no other.
 */
module HooksEvents {
  import opened Options
  import opened Hooks
  import opened HooksRuns
  import opened HooksTheorems
  import opened HooksExits
  import opened HooksPasses

  // ----- One step -----------------------------------------------------------

  ghost predicate Steps(s: State, a: Action, t: State) { Enabled(s, a) && t == Do(s, a) }

  // What a step says.
  ghost function New(s: State, t: State): seq<Note> {
    if |s.hist| <= |t.hist| then t.hist[|s.hist|..] else []
  }

  // The pass on top of the stack is this one.
  ghost predicate Passing(s: State, f: Frame) { s.stack != [] && s.stack[0] == f }

  // Which event says what.
  ghost predicate Fits(s: State, a: Action, n: Note) {
    match n
    case Opened(op, token) => a.Suspend? && op == s.ops
    case Returned(op, _) => a.Return?
    case Held(op, _) => a.Return?
    case Called(_, result, Answered(token)) => a == Resume(token, result)
    case Called(_, _, Late(now)) => a == Go && (Passing(s, Expiring(now, false)) || Passing(s, Expiring(now, true)))
    case Called(_, _, Unloaded(mod)) => a == Go && Passing(s, Dropping(mod))
    case Dropped(_, client) => a == Cancel(client)
  }

  lemma {:induction false} CancelledFit(s: State, k: nat, who: nat)
    requires k <= |s.holds|
    ensures var t := Cancelled(s, k, who);
            && s.hist <= t.hist
            && forall p :: |s.hist| <= p < |t.hist| ==> t.hist[p].Dropped? && t.hist[p].client == who
    decreases |s.holds| - k
  {
    if k < |s.holds| {
      if s.holds[k].client == Some(who) {
        CancelledFit(Forget(s, k, who), k, who);
      } else {
        CancelledFit(s, k + 1, who);
      }
    }
  }

  ghost predicate AllFit(s: State, a: Action, hist: seq<Note>) {
    s.hist <= hist && forall p :: |s.hist| <= p < |hist| ==> Fits(s, a, hist[p])
  }

  lemma OneFits(s: State, a: Action, hist: seq<Note>, n: Note)
    requires hist == s.hist + [n] && Fits(s, a, n)
    ensures AllFit(s, a, hist)
  {
  }

  lemma ReturnFits(s: State, a: Action, t: State)
    requires Steps(s, a, t) && a.Return?
    ensures AllFit(s, a, t.hist) && s.ops <= t.ops
  {
    OneFits(s, a, t.hist, t.hist[|s.hist|]);
  }

  lemma GoFits(s: State, t: State)
    requires Steps(s, Go, t)
    ensures AllFit(s, Go, t.hist) && s.ops <= t.ops
  {
    if t.hist != s.hist { OneFits(s, Go, t.hist, t.hist[|s.hist|]); }
  }

  lemma ResumeFits(s: State, a: Action, t: State)
    requires Steps(s, a, t) && a.Resume?
    ensures AllFit(s, a, t.hist) && s.ops <= t.ops
  {
    if t.hist != s.hist { OneFits(s, a, t.hist, t.hist[|s.hist|]); }
  }

  lemma StepFits(s: State, a: Action, t: State)
    requires Steps(s, a, t)
    ensures AllFit(s, a, t.hist) && s.ops <= t.ops
  {
    match a
    case Cancel(who) =>
      CancelledFit(s, 0, who);
      CancelledGrows(s, 0, who);
    case Return(_, _) => ReturnFits(s, a, t);
    case Go => GoFits(s, t);
    case Resume(_, _) => ResumeFits(s, a, t);
    case Suspend(_, _, count) => OneFits(s, a, t.hist, Opened(s.ops, count % TOKENS));
    case _ =>
  }

  lemma AllNew(s: State, a: Action, t: State)
    requires AllFit(s, a, t.hist)
    ensures t.hist == s.hist + New(s, t)
    ensures forall p :: 0 <= p < |New(s, t)| ==> Fits(s, a, New(s, t)[p])
  {
  }

  lemma NotesFit(s: State, a: Action, t: State)
    requires Steps(s, a, t)
    ensures t.hist == s.hist + New(s, t) && s.ops <= t.ops
    ensures forall p :: 0 <= p < |New(s, t)| ==> Fits(s, a, New(s, t)[p])
  {
    StepFits(s, a, t);
    AllNew(s, a, t);
  }

  lemma NeverWrong(s: State, op: nat)
    requires Inv(s)
    ensures Life(s.hist, op) != Wrong
  {
    assert Tracks(s, op);
  }

  // ----- While it is asked --------------------------------------------------

  // The only chain that runs for an operation is f.
  ghost predicate OnlyRuns(s: State, f: Frame)
    requires f.Running?
  {
    f.op < s.ops && forall i :: 0 <= i < |s.stack| && s.stack[i].Running? && s.stack[i].op == f.op ==> s.stack[i] == f
  }

  ghost function Asked(a: Action, op: nat): Frame
    requires a.Suspend?
  {
    Running(op, a.count % TOKENS, a.client, a.deadline)
  }

  lemma AskedRuns(s: State, a: Action, t: State)
    requires Inv(s) && Steps(s, a, t) && a.Suspend?
    ensures OnlyRuns(t, Asked(a, s.ops)) && t.stack == [Asked(a, s.ops)] + s.stack
    ensures New(s, t) == [Opened(s.ops, a.count % TOKENS)]
  {
    assert Tracks(s, s.ops);
    assert forall i :: 0 < i < |t.stack| ==> t.stack[i] == s.stack[i - 1];
    assert !Asking(s, s.ops);
  }

  lemma StillRuns(s: State, a: Action, t: State, f: Frame)
    requires f.Running? && OnlyRuns(s, f) && Steps(s, a, t)
    ensures OnlyRuns(t, f)
  {
    NotesFit(s, a, t);
    StackStep(s, a, t);
    forall i | 0 <= i < |t.stack| && t.stack[i].Running? && t.stack[i].op == f.op ensures t.stack[i] == f {
      if t.stack == s.stack {
        assert s.stack[i] == f;
      } else if s.stack != [] && t.stack == s.stack[1..] {
        assert s.stack[i + 1] == f;
      } else {
        assert i > 0 ==> t.stack[i] == s.stack[i - 1];
      }
    }
  }

  lemma StackStep(s: State, a: Action, t: State)
    requires Steps(s, a, t)
    ensures || t.stack == s.stack || (s.stack != [] && t.stack == s.stack[1..])
            || (t.stack != [] && t.stack == [t.stack[0]] + s.stack && (t.stack[0].Running? ==> t.stack[0].op == s.ops)
                && (t.stack[0].Expiring? ==> a == Expire(t.stack[0].now) || a == Timer(t.stack[0].now))
                && (t.stack[0].Dropping? ==> a == Unload(t.stack[0].mod)))
  {
    if a.Cancel? {
      CancelledGrows(s, 0, a.who);
    }
  }

  // The chain of an operation is about to return.
  ghost predicate IsDone(s: State, op: nat) { s.stack != [] && s.stack[0].Running? && s.stack[0].op == op }

  // ----- Runs ---------------------------------------------------------------

  // A run: what happened, and the states between.
  ghost predicate Trace(acts: seq<Action>, ss: seq<State>) {
    && |ss| == |acts| + 1 && ss[0] == Start
    && forall k :: 0 <= k < |acts| ==> Steps(ss[k], acts[k], ss[k + 1])
  }

  // Every run is one of these, and these are runs.
  lemma {:induction false} TraceOf(s: State, acts: seq<Action>, t: State) returns (ss: seq<State>)
    requires Run(s, acts, t)
    ensures |ss| == |acts| + 1 && ss[0] == s && ss[|acts|] == t
    ensures forall k :: 0 <= k < |acts| ==> Steps(ss[k], acts[k], ss[k + 1])
    decreases |acts|
  {
    if acts == [] {
      ss := [s];
    } else {
      var rest := TraceOf(Do(s, acts[0]), acts[1..], t);
      ss := [s] + rest;
      forall k | 0 <= k < |acts| ensures Steps(ss[k], acts[k], ss[k + 1]) {
        assert k > 0 ==> Steps(rest[k - 1], acts[1..][k - 1], rest[k]);
      }
    }
  }

  lemma {:induction false} RunOf(acts: seq<Action>, ss: seq<State>, k: nat, more: seq<Action>)
    requires Trace(acts, ss) && k <= |acts| && more == acts[k..]
    ensures Run(ss[k], more, ss[|acts|])
    decreases |acts| - k
  {
    if k < |acts| {
      assert Steps(ss[k], acts[k], ss[k + 1]);
      assert more[0] == acts[k] && more[1..] == acts[k + 1..];
      RunOf(acts, ss, k + 1, more[1..]);
    }
  }

  lemma {:induction false} AlwaysInv(acts: seq<Action>, ss: seq<State>, k: nat)
    requires Trace(acts, ss) && k <= |acts|
    ensures Inv(ss[k])
  {
    if k == 0 {
      StartInv();
    } else {
      AlwaysInv(acts, ss, k - 1);
      assert Steps(ss[k - 1], acts[k - 1], ss[k]);
      StepKeeps(ss[k - 1], acts[k - 1]);
    }
  }

  lemma {:induction false} StaysOnly(acts: seq<Action>, ss: seq<State>, i: nat, k: nat)
    requires Trace(acts, ss) && i < k <= |acts| && acts[i].Suspend?
    ensures OnlyRuns(ss[k], Asked(acts[i], ss[i].ops))
  {
    assert Steps(ss[k - 1], acts[k - 1], ss[k]);
    if k == i + 1 {
      AlwaysInv(acts, ss, i);
      AskedRuns(ss[i], acts[i], ss[k]);
    } else {
      StaysOnly(acts, ss, i, k - 1);
      StillRuns(ss[k - 1], acts[k - 1], ss[k], Asked(acts[i], ss[i].ops));
    }
  }

  lemma {:induction false} PassBegan(acts: seq<Action>, ss: seq<State>, k: nat, f: Frame) returns (j: nat)
    requires Trace(acts, ss) && k <= |acts| && f in ss[k].stack && !f.Running?
    ensures j < k && (f.Expiring? ==> acts[j] == Expire(f.now) || acts[j] == Timer(f.now))
    ensures f.Dropping? ==> acts[j] == Unload(f.mod)
  {
    assert k > 0 ==> Steps(ss[k - 1], acts[k - 1], ss[k]);
    if f in ss[k - 1].stack {
      j := PassBegan(acts, ss, k - 1, f);
    } else {
      StackStep(ss[k - 1], acts[k - 1], ss[k]);
      j := k - 1;
    }
  }

  // ----- What the chain's return means --------------------------------------

  lemma ReturnStep(s: State, a: Action, t: State, f: Frame)
    requires Steps(s, a, t) && f.Running? && OnlyRuns(s, f) && a.Return? && IsDone(s, f.op)
    ensures t.stack == s.stack[1..]
    ensures New(s, t) ==
            if a.result != Pending then [Returned(f.op, a.result)]
            else if |s.holds| >= 16384 then [Returned(f.op, Deny)]
            else [Held(f.op, Hold(f.op, f.token, a.mod, f.client, f.deadline))]
    ensures a.result == Pending && |s.holds| < 16384 ==>
              t.holds == [Hold(f.op, f.token, a.mod, f.client, f.deadline)] + s.holds
  {
  }

  // When the chain asked at event i returns, it is decided as it says; unless
  // it is put off, and then it is held for the module that put it off, with
  // the token, client and deadline it was asked with - or denied, if 16384 are
  // held already.
  lemma ReturnsAsAsked(acts: seq<Action>, ss: seq<State>, i: nat, r: nat)
    requires Trace(acts, ss) && i < r < |acts| && acts[i].Suspend? && acts[r].Return? && IsDone(ss[r], ss[i].ops)
    ensures var op := ss[i].ops;
            New(ss[r], ss[r + 1]) ==
              if acts[r].result != Pending then [Returned(op, acts[r].result)]
              else if |ss[r].holds| >= 16384 then [Returned(op, Deny)]
              else [Held(op, Hold(op, acts[i].count % TOKENS, acts[r].mod, acts[i].client, acts[i].deadline))]
  {
    assert Steps(ss[r], acts[r], ss[r + 1]);
    StaysOnly(acts, ss, i, r);
    ReturnStep(ss[r], acts[r], ss[r + 1], Asked(acts[i], ss[i].ops));
  }

  // ----- Why a hold ends ----------------------------------------------------

  // Event i asked about operation `op`, and event r is that chain's return,
  // put off and held.
  ghost predicate Holds(acts: seq<Action>, ss: seq<State>, i: nat, r: nat, op: nat) {
    && i < r < |acts| < |ss| && acts[i].Suspend? && op == ss[i].ops
    && acts[r].Return? && acts[r].result == Pending && IsDone(ss[r], op) && |ss[r].holds| < 16384
  }

  ghost function Kept(a: Action, b: Action, op: nat): Hold
    requires a.Suspend? && b.Return?
  {
    Hold(op, a.count % TOKENS, b.mod, a.client, a.deadline)
  }

  // The operation waits as h has it, or has been settled.
  ghost predicate Bound(hist: seq<Note>, h: Hold) {
    Life(hist, h.op) == Waiting(h) || Life(hist, h.op).Settled?
  }

  lemma BoundOn(hist: seq<Note>, more: seq<Note>, h: Hold)
    requires Bound(hist, h) && Life(hist + more, h.op) != Wrong
    ensures Bound(hist + more, h) && (Life(hist, h.op).Settled? ==> Life(hist + more, h.op) == Life(hist, h.op))
  {
    if Life(hist, h.op).Settled? { EndIsEnd(hist, more, h.op); } else { WaitsOrEnds(hist, more, h.op); }
  }

  lemma StepBound(s: State, a: Action, t: State, h: Hold)
    requires Inv(s) && Steps(s, a, t) && Bound(s.hist, h)
    ensures Bound(t.hist, h) && (Life(s.hist, h.op).Settled? ==> Life(t.hist, h.op) == Life(s.hist, h.op))
  {
    StepKeeps(s, a);
    NeverWrong(t, h.op);
    NotesFit(s, a, t);
    BoundOn(s.hist, New(s, t), h);
  }

  lemma HeldBound(s: State, t: State, h: Hold)
    requires Inv(t) && t.hist == s.hist + [Held(h.op, h)]
    ensures Life(t.hist, h.op) == Waiting(h)
  {
    NeverWrong(t, h.op);
    LifeNext(s.hist, Held(h.op, h), h.op);
  }

  lemma {:induction false} StaysBound(acts: seq<Action>, ss: seq<State>, i: nat, r: nat, op: nat, k: nat)
    requires Trace(acts, ss) && Holds(acts, ss, i, r, op) && r < k <= |acts|
    ensures Bound(ss[k].hist, Kept(acts[i], acts[r], op))
  {
    AlwaysInv(acts, ss, k - 1);
    assert Steps(ss[k - 1], acts[k - 1], ss[k]);
    if k == r + 1 {
      ReturnsAsAsked(acts, ss, i, r);
      AlwaysInv(acts, ss, k);
      NotesFit(ss[r], acts[r], ss[k]);
      HeldBound(ss[r], ss[k], Kept(acts[i], acts[r], op));
    } else {
      StaysBound(acts, ss, i, r, op, k - 1);
      StepBound(ss[k - 1], acts[k - 1], ss[k], Kept(acts[i], acts[r], op));
    }
  }

  lemma SaidOf(s: State, t: State, h: Hold, q: nat)
    requires Inv(t) && t.hist == s.hist + New(s, t) && Bound(s.hist, h) && q < |New(s, t)| && New(s, t)[q].op == h.op
    ensures Life(s.hist, h.op) == Waiting(h) && Lives(Waiting(h), h.op, New(s, t)[q]).Settled?
  {
    var p, new_ := |s.hist| + q, New(s, t);
    NeverWrong(t, h.op);
    NeverWrongBefore(t.hist, p, h.op);
    NeverWrongBefore(t.hist, p + 1, h.op);
    assert t.hist[..p] == s.hist + new_[..q] && t.hist[..p + 1] == t.hist[..p] + [new_[q]];
    BoundOn(s.hist, new_[..q], h);
    LifeNext(t.hist[..p], new_[q], h.op);
  }

  lemma SaidFits(s: State, a: Action, t: State, h: Hold, n: Note)
    requires Inv(t) && Steps(s, a, t) && Bound(s.hist, h) && n in New(s, t) && n.op == h.op
    ensures Life(s.hist, h.op) == Waiting(h) && Lives(Waiting(h), h.op, n).Settled? && Fits(s, a, n)
  {
    NotesFit(s, a, t);
    var q :| 0 <= q < |New(s, t)| && New(s, t)[q] == n;
    SaidOf(s, t, h, q);
  }

  // Whatever ends a hold is an answer with the token it was asked with, passed
  // on as it is; or a denial, in a pass begun at a time not before the deadline
  // it was asked with, or in one begun to unload the module that put it off; or
  // the exit of the client it was asked for, and then nobody is called.
  lemma EndsAsAsked(acts: seq<Action>, ss: seq<State>, i: nat, r: nat, op: nat, k: nat, n: Note) returns (j: nat)
    requires Trace(acts, ss) && Holds(acts, ss, i, r, op) && r < k < |acts| && n in New(ss[k], ss[k + 1]) && n.op == op
    ensures n.Called? || n.Dropped?
    ensures n.Called? && n.why.Answered? ==> acts[k] == Resume(acts[i].count % TOKENS, n.result)
    ensures n.Called? && n.why.Late? ==> n.result == Deny && acts[i].deadline <= n.why.now
    ensures n.Called? && n.why.Late? ==> j < k && (acts[j] == Expire(n.why.now) || acts[j] == Timer(n.why.now))
    ensures n.Called? && n.why.Unloaded? ==> n.result == Deny && j < k && acts[j] == Unload(acts[r].mod)
    ensures n.Dropped? ==> acts[k].Cancel? && acts[i].client == Some(acts[k].who)
  {
    assert Steps(ss[k], acts[k], ss[k + 1]);
    AlwaysInv(acts, ss, k + 1);
    StaysBound(acts, ss, i, r, op, k);
    SaidFits(ss[k], acts[k], ss[k + 1], Kept(acts[i], acts[r], op), n);
    j := 0;
    if n.Called? && !n.why.Answered? {
      j := PassBegan(acts, ss, k, ss[k].stack[0]);
    }
  }

  // ----- What must end it ---------------------------------------------------

  lemma HeldIsThere(s: State, h: Hold)
    requires Inv(s) && Bound(s.hist, h)
    ensures h in s.holds <==> Life(s.hist, h.op) == Waiting(h)
  {
    assert Tracks(s, h.op);
  }

  // The exit of its client drops it, and no other client's does.
  lemma ExitDropsIff(acts: seq<Action>, ss: seq<State>, i: nat, r: nat, op: nat, k: nat)
    requires Trace(acts, ss) && Holds(acts, ss, i, r, op) && r < k < |acts|
    requires acts[k].Cancel? && !Life(ss[k].hist, op).Settled?
    ensures Life(ss[k + 1].hist, op).Settled? <==> acts[i].client == Some(acts[k].who)
  {
    var h := Kept(acts[i], acts[r], op);
    assert Steps(ss[k], acts[k], ss[k + 1]);
    AlwaysInv(acts, ss, k);
    AlwaysInv(acts, ss, k + 1);
    StaysBound(acts, ss, i, r, op, k);
    StaysBound(acts, ss, i, r, op, k + 1);
    HeldIsThere(ss[k], h);
    HeldIsThere(ss[k + 1], h);
    ExitClears(ss[k], acts[k].who);
  }

  // The event begins a pass this operation is to be ended by: one not before
  // its deadline, or one that unloads the module that put it off.
  predicate Sweeps(a: Action, b: Action, c: Action)
    requires a.Suspend? && b.Return?
  {
    match c
    case Expire(now) => a.deadline <= now
    case Timer(now) => a.deadline <= now
    case Unload(mod) => b.mod == mod
    case _ => false
  }

  lemma SweepBegins(s: State, a: Action, b: Action, c: Action, t: State, h: Hold)
    requires a.Suspend? && b.Return? && Steps(s, c, t) && Sweeps(a, b, c) && h == Kept(a, b, h.op)
    ensures t.stack != [] && !t.stack[0].Running? && |t.stack| == |s.stack| + 1 && Passes(h, About(t.stack[0]))
  {
  }

  // Such a pass, once it is over, has ended it.
  lemma PassEnds(acts: seq<Action>, ss: seq<State>, i: nat, r: nat, op: nat, k: nat, more: seq<Action>, t: State)
    requires Trace(acts, ss) && Holds(acts, ss, i, r, op) && r < k < |acts| && Sweeps(acts[i], acts[r], acts[k])
    requires Within(ss[k + 1], more, t, |ss[k].stack| + 1)
    ensures Life(t.hist, op).Settled?
  {
    var s, h := ss[k + 1], Kept(acts[i], acts[r], op);
    assert Steps(ss[k], acts[k], s);
    AlwaysInv(acts, ss, k + 1);
    StaysBound(acts, ss, i, r, op, k + 1);
    HeldIsThere(s, h);
    SweepBegins(ss[k], acts[i], acts[r], acts[k], s, h);
    WithinRuns(s, more, t, |s.stack|);
    if Life(s.hist, op).Settled? {
      SettledForGood(s, more, t, op);
    } else {
      PassEndsAll(s, more, t, h);
    }
  }

  // Every chain that is run is for an operation of its own.
  lemma {:induction false} OpsGrow(acts: seq<Action>, ss: seq<State>, i: nat, k: nat)
    requires Trace(acts, ss) && i <= k <= |acts|
    ensures ss[i].ops <= ss[k].ops
  {
    if i < k {
      OpsGrow(acts, ss, i, k - 1);
      assert Steps(ss[k - 1], acts[k - 1], ss[k]);
      NotesFit(ss[k - 1], acts[k - 1], ss[k]);
    }
  }

  lemma AsksItsOwn(acts: seq<Action>, ss: seq<State>, i: nat, j: nat)
    requires Trace(acts, ss) && i < j < |acts| && acts[i].Suspend? && acts[j].Suspend?
    ensures ss[i].ops < ss[j].ops
  {
    assert Steps(ss[i], acts[i], ss[i + 1]);
    OpsGrow(acts, ss, i + 1, j);
  }

  // ----- The timer ----------------------------------------------------------

  ghost predicate IsLeast(at: nat, holds: seq<Hold>) {
    (exists h :: h in holds && h.deadline == at) && forall h :: h in holds ==> at <= h.deadline
  }

  ghost predicate OwnPass(s: State) { s.stack != [] && s.stack[0].Expiring? && s.stack[0].timer }

  // A timer that fires is spent, and one that is set stays as it is until
  // then. It is set only for the earliest deadline there is, and that when an
  // operation is held or its own pass is over, if anything is held then.
  lemma TimerIs(s: State, a: Action, t: State)
    requires Inv(s) && Steps(s, a, t)
    ensures a.Timer? ==> t.armed.None?
    ensures !a.Timer? && s.armed.Some? ==> t.armed == s.armed
    ensures s.armed.None? && t.armed.Some? ==> IsLeast(t.armed.value, t.holds)
    ensures s.armed.None? && |t.holds| > |s.holds| ==> t.armed.Some?
    ensures a.Go? && OwnPass(s) && |t.stack| < |s.stack| && t.holds != [] ==> t.armed.Some?
  {
    StepKeeps(s, a);
    HeldLater(t);
    EarliestIs(t.holds);
    ArmStep(s, a, t);
  }

  lemma HeldLater(s: State)
    requires Inv(s)
    ensures forall h :: h in s.holds ==> h.deadline > 0
  {
  }

  lemma ArmStep(s: State, a: Action, t: State)
    requires Steps(s, a, t)
    ensures a.Timer? ==> t.armed.None?
    ensures !a.Timer? && s.armed.Some? ==> t.armed == s.armed
    ensures s.armed.None? && t.armed.Some? ==> t.armed.value == Earliest(t.holds) > 0
    ensures s.armed.None? && |t.holds| > |s.holds| && Earliest(t.holds) > 0 ==> t.armed.Some?
    ensures a.Go? && OwnPass(s) && |t.stack| < |s.stack| && Earliest(t.holds) > 0 ==> t.armed.Some?
  {
    if a.Cancel? {
      CancelledGrows(s, 0, a.who);
      CancelledFewer(s, 0, a.who);
    }
  }

  lemma {:induction false} CancelledFewer(s: State, k: nat, who: nat)
    requires k <= |s.holds|
    ensures |Cancelled(s, k, who).holds| <= |s.holds|
    decreases |s.holds| - k
  {
    if k < |s.holds| {
      if s.holds[k].client == Some(who) {
        CancelledFewer(Forget(s, k, who), k, who);
      } else {
        CancelledFewer(s, k + 1, who);
      }
    }
  }
}
