/**
 * When a client leaves: which of its operations can still be called back.
 */
module HooksExits {
  import opened Options
  import opened Hooks
  import opened HooksRuns
  import opened HooksTheorems

  // A chain is being run for the client's operation at this very moment.
  ghost predicate RunsFor(s: State, op: nat, who: nat) {
    exists i :: 0 <= i < |s.stack| && s.stack[i].Running? && s.stack[i].op == op && s.stack[i].client == Some(who)
  }

  // In the run, the callback of an operation of `who` that was opened before
  // `who` left runs after that.
  ghost predicate CalledAfter(s: State, who: nat, acts: seq<Action>, u: State, op: nat) {
    && Run(Do(s, Cancel(who)), acts, u) && op < s.ops
    && (exists k :: |Do(s, Cancel(who)).hist| <= k < |u.hist| && u.hist[k].Called? && u.hist[k].op == op)
    && (exists h :: Held(op, h) in u.hist && h.client == Some(who))
  }

  // ----- Whose an operation is ----------------------------------------------

  // Everything known about an open operation says it is about `client`.
  ghost predicate Belongs(s: State, op: nat, client: Option<nat>) {
    && op < s.ops
    && (forall i :: 0 <= i < |s.stack| && s.stack[i].Running? && s.stack[i].op == op ==> s.stack[i].client == client)
    && (forall h :: Held(op, h) in s.hist ==> h.client == client)
  }

  lemma {:induction false} CancelKeepsHeld(s: State, k: nat, who: nat)
    requires k <= |s.holds|
    ensures forall op, h :: Held(op, h) in Cancelled(s, k, who).hist ==> Held(op, h) in s.hist
    decreases |s.holds| - k
  {
    if k < |s.holds| {
      if s.holds[k].client == Some(who) {
        CancelKeepsHeld(Forget(s, k, who), k, who);
      } else {
        CancelKeepsHeld(s, k + 1, who);
      }
    }
  }

  lemma StepBelongs(s: State, a: Action, op: nat, client: Option<nat>)
    requires Enabled(s, a) && Belongs(s, op, client)
    ensures Belongs(Do(s, a), op, client)
  {
    match a
    case Cancel(who) =>
      CancelledGrows(s, 0, who);
      CancelKeepsHeld(s, 0, who);
    case Return(_, _) => assert s.stack[0].Running?;
    case _ =>
  }

  lemma {:induction false} RunBelongs(s: State, acts: seq<Action>, t: State, op: nat, client: Option<nat>)
    requires Run(s, acts, t) && Belongs(s, op, client)
    ensures Belongs(t, op, client)
    decreases |acts|
  {
    if acts != [] {
      StepBelongs(s, acts[0], op, client);
      RunBelongs(Do(s, acts[0]), acts[1..], t, op, client);
    }
  }

  lemma {:induction false} NotHeldYet(hist: seq<Note>, op: nat, h: Hold)
    requires Life(hist, op) == Unborn || Life(hist, op) == Asked
    ensures Held(op, h) !in hist
  {
    if hist != [] {
      var last := |hist| - 1;
      NotHeldYet(hist[..last], op, h);
      assert hist == hist[..last] + [hist[last]];
    }
  }

  lemma {:induction false} HeldIsTheHold(hist: seq<Note>, op: nat, h: Hold)
    requires Life(hist, op).Waiting? && Held(op, h) in hist
    ensures Life(hist, op).hold == h
  {
    var last := |hist| - 1;
    assert hist == hist[..last] + [hist[last]];
    if hist[last].op == op {
      if hist[last] != Held(op, h) { NotHeldYet(hist[..last], op, h); }
    } else {
      HeldIsTheHold(hist[..last], op, h);
    }
  }

  // ----- Only a chain that is running ---------------------------------------

  lemma LaterWaits(t: State, u: State, k: nat, op: nat)
    requires Inv(u) && t.hist <= u.hist && |t.hist| <= k < |u.hist| && u.hist[k].Called? && u.hist[k].op == op
    ensures !Life(t.hist, op).Settled? && !Life(t.hist, op).Decided?
  {
    assert Tracks(u, op);
    NeverWrongBefore(u.hist, k + 1, op);
    LifePrefix(u.hist, k, op);
    var more := u.hist[|t.hist|..k];
    assert t.hist + more == u.hist[..k];
    if Life(t.hist, op).Settled? || Life(t.hist, op).Decided? { EndIsEnd(t.hist, more, op); }
  }

  lemma {:induction false} StackStays(s: State, who: nat)
    ensures Do(s, Cancel(who)).stack == s.stack && Do(s, Cancel(who)).ops == s.ops
  {
    CancelledGrows(s, 0, who);
  }

  lemma OnlyRunning(s: State, who: nat, acts: seq<Action>, u: State, op: nat)
    requires Reachable(s) && CalledAfter(s, who, acts, u, op)
    ensures RunsFor(s, op, who)
  {
    ReachableInv(s);
    var t := Do(s, Cancel(who));
    StepKeeps(s, Cancel(who));
    RunKeeps(t, acts, u);
    RunGrows(t, acts, u);
    StackStays(s, who);
    var k :| |t.hist| <= k < |u.hist| && u.hist[k].Called? && u.hist[k].op == op;
    var h :| Held(op, h) in u.hist && h.client == Some(who);
    LaterWaits(t, u, k, op);
    assert Tracks(t, op);
    if Life(t.hist, op).Waiting? {
      StillTheSame(t, acts, u, op, h);
      CancelClears(s, 0, who);
      assert false;
    }
    var i :| 0 <= i < |t.stack| && t.stack[i].Running? && t.stack[i].op == op;
    forall g ensures Held(op, g) !in t.hist { NotHeldYet(t.hist, op, g); }
    assert Belongs(t, op, t.stack[i].client);
    RunBelongs(t, acts, u, op, t.stack[i].client);
  }

  // A hold that waits is the only one its operation ever has.
  lemma StillTheSame(t: State, acts: seq<Action>, u: State, op: nat, h: Hold)
    requires Inv(t) && Run(t, acts, u) && Life(t.hist, op).Waiting? && Held(op, h) in u.hist
    ensures h in t.holds
  {
    assert Tracks(t, op);
    RunKeeps(t, acts, u);
    RunGrows(t, acts, u);
    assert Tracks(u, op);
    var hold := Life(t.hist, op).hold;
    var more := u.hist[|t.hist|..];
    assert u.hist == t.hist + more;
    NoSecondHold(t.hist, more, op, h);
    HeldIsTheHold(t.hist, op, h);
  }

  lemma {:induction false} NoSecondHold(hist: seq<Note>, more: seq<Note>, op: nat, h: Hold)
    requires Life(hist, op).Waiting? && Life(hist + more, op) != Wrong && Held(op, h) in hist + more
    ensures Held(op, h) in hist
    ensures Life(hist + more, op) == Life(hist, op) || Life(hist + more, op).Settled?
    decreases |more|
  {
    if more == [] {
      assert hist + more == hist;
    } else {
      var m := |more| - 1;
      LifeNext(hist + more[..m], more[m], op);
      assert hist + more == hist + more[..m] + [more[m]];
      WaitsOrEnds(hist, more[..m], op);
      assert more[m] != Held(op, h);
      NoSecondHold(hist, more[..m], op, h);
    }
  }

  lemma {:induction false} WaitsOrEnds(hist: seq<Note>, more: seq<Note>, op: nat)
    requires Life(hist, op).Waiting? && Life(hist + more, op) != Wrong
    ensures Life(hist + more, op) == Life(hist, op) || Life(hist + more, op).Settled?
    decreases |more|
  {
    if more == [] {
      assert hist + more == hist;
    } else {
      var m := |more| - 1;
      LifeNext(hist + more[..m], more[m], op);
      assert hist + more == hist + more[..m] + [more[m]];
      WaitsOrEnds(hist, more[..m], op);
    }
  }

  // ----- And any chain that is running --------------------------------------

  lemma OneStep(s: State, a: Action, acts: seq<Action>, t: State)
    requires Enabled(s, a) && Run(Do(s, a), acts, t)
    ensures Run(s, [a] + acts, t)
  {
    assert ([a] + acts)[1..] == acts;
  }

  // One turn of what is on top: it is over, or there is one hold fewer.
  lemma OneTurn(s: State) returns (a: Action, t: State)
    requires Inv(s) && s.stack != []
    ensures Enabled(s, a) && t == Do(s, a) && Inv(t) && s.hist <= t.hist
    ensures t.stack == s.stack[1..] || (t.stack == s.stack && |t.holds| < |s.holds|)
  {
    a := if s.stack[0].Running? then Return(Continue, 0) else Go;
    t := Do(s, a);
    StepKeeps(s, a);
    StepGrows(s, a);
  }

  lemma OneTurnRun(s: State) returns (a: Action, t: State)
    requires Inv(s) && s.stack != []
    ensures Inv(t) && s.hist <= t.hist
    ensures t.stack == s.stack[1..] || (t.stack == s.stack && |t.holds| < |s.holds|)
    ensures forall acts, u :: Run(t, acts, u) ==> Run(s, [a] + acts, u)
  {
    a, t := OneTurn(s);
    forall acts, u | Run(t, acts, u) ensures Run(s, [a] + acts, u) {
      OneStep(s, a, acts, u);
    }
  }

  // Whatever is under way above a frame can come to its end.
  lemma {:induction false} Unwind(s: State, i: nat) returns (acts: seq<Action>, t: State)
    requires Inv(s) && i < |s.stack|
    ensures Run(s, acts, t) && Inv(t) && t.stack == s.stack[i..] && s.hist <= t.hist
    decreases i, |s.holds|
  {
    if i == 0 {
      acts, t := [], s;
    } else {
      var a, next := OneTurnRun(s);
      acts, t := Unwind(next, if next.stack == s.stack then i else i - 1);
      acts := [a] + acts;
    }
  }

  // There is room for one more hold, or can be made.
  lemma MakeRoom(s: State) returns (acts: seq<Action>, t: State)
    requires Inv(s)
    ensures Run(s, acts, t) && Inv(t) && t.stack == s.stack && s.hist <= t.hist && |t.holds| < PENDING_MAX
  {
    if |s.holds| < PENDING_MAX {
      acts, t := [], s;
    } else {
      var a := Resume(s.holds[0].token, Deny);
      assert Passes(s.holds[0], HasToken(s.holds[0].token));
      t := Do(s, a);
      StepKeeps(s, a);
      StepGrows(s, a);
      acts := [a];
      assert Run(t, [], t);
      OneStep(s, a, [], t);
      assert [a] + [] == [a];
    }
  }

  // The chain on top of the stack is suspended, and answered.
  lemma HeldAndAnswered(s: State, op: nat, client: Option<nat>) returns (acts: seq<Action>, t: State)
    requires Inv(s) && |s.holds| < PENDING_MAX
    requires s.stack != [] && s.stack[0].Running? && s.stack[0].op == op && s.stack[0].client == client
    ensures Run(s, acts, t) && |t.hist| == |s.hist| + 2 && s.hist <= t.hist
    ensures t.hist[|s.hist| + 1].Called? && t.hist[|s.hist| + 1].op == op
    ensures exists h :: t.hist[|s.hist|] == Held(op, h) && h.client == client
  {
    var f := s.stack[0];
    var h := HoldOf(f, 0);
    var s1 := Do(s, Return(Pending, 0));
    assert s1.holds[0] == h && s1.hist == s.hist + [Held(op, h)];
    assert Passes(s1.holds[0], HasToken(h.token));
    t := Do(s1, Resume(h.token, Allow));
    assert t.hist == s1.hist + [Called(op, Allow, Answered(h.token))];
    OneStep(s1, Resume(h.token, Allow), [], t);
    acts := [Resume(h.token, Allow)] + [];
    OneStep(s, Return(Pending, 0), acts, t);
    acts := [Return(Pending, 0)] + acts;
  }

  lemma {:induction false} RunBoth(s: State, a: seq<Action>, t: State, b: seq<Action>, u: State)
    requires Run(s, a, t) && Run(t, b, u)
    ensures Run(s, a + b, u)
    decreases |a|
  {
    if a == [] {
      assert a + b == b;
    } else {
      RunBoth(Do(s, a[0]), a[1..], t, b, u);
      assert (a + b)[1..] == a[1..] + b;
    }
  }

  lemma RunningIsEnough(s: State, op: nat, who: nat) returns (acts: seq<Action>, u: State)
    requires Reachable(s) && RunsFor(s, op, who)
    ensures CalledAfter(s, who, acts, u, op)
  {
    ReachableInv(s);
    var t := Do(s, Cancel(who));
    StepKeeps(s, Cancel(who));
    StackStays(s, who);
    var i :| 0 <= i < |s.stack| && s.stack[i].Running? && s.stack[i].op == op && s.stack[i].client == Some(who);
    assert Tracks(s, op) && Asking(s, op);
    var a, t1 := Unwind(t, i);
    var b, t2 := MakeRoom(t1);
    var c;
    c, u := HeldAndAnswered(t2, op, Some(who));
    RunBoth(t, a, t1, b, t2);
    RunBoth(t, a + b, t2, c, u);
    acts := a + b + c;
    var h :| u.hist[|t2.hist|] == Held(op, h) && h.client == Some(who);
    assert Held(op, h) in u.hist;
  }

  // An operation of a client can be called back after the client has left if
  // and only if its chain was being run when it left: the chain's suspension
  // is then recorded without another look at the client.
  lemma CalledAfterIff(s: State, op: nat, who: nat)
    requires Reachable(s)
    ensures (exists acts, u :: CalledAfter(s, who, acts, u, op)) <==> RunsFor(s, op, who)
  {
    if exists acts, u :: CalledAfter(s, who, acts, u, op) {
      var acts, u :| CalledAfter(s, who, acts, u, op);
      OnlyRunning(s, who, acts, u, op);
    }
    if RunsFor(s, op, who) {
      var acts, u := RunningIsEnough(s, op, who);
    }
  }

  // Client 5 leaves while its chain runs; a module suspends the chain, and its
  // answer is delivered.
  lemma CalledAfterExit() returns (acts: seq<Action>, s: State)
    ensures acts == [Suspend(Some(5), 100, 1), Cancel(5), Return(Pending, 7), Resume(1, Allow)]
    ensures Run(Start, acts, s) && Called(0, Allow, Answered(1)) in s.hist
    ensures Held(0, Hold(0, 1, 7, Some(5), 100)) in s.hist
  {
    acts := [Suspend(Some(5), 100, 1), Cancel(5), Return(Pending, 7), Resume(1, Allow)];
    var h := Hold(0, 1, 7, Some(5), 100);
    var s1 := Do(Start, acts[0]);
    assert s1.stack == [Running(0, 1, Some(5), 100)];
    var s2 := Do(s1, acts[1]);
    assert s2 == s1;
    var s3 := Do(s2, acts[2]);
    assert s3.holds == [h] && Passes(h, HasToken(1));
    s := Do(s3, acts[3]);
    assert s.hist == [Opened(0, 1), Held(0, h), Called(0, Allow, Answered(1))];
    OneStep(s3, acts[3], [], s);
    OneStep(s2, acts[2], [acts[3]] + [], s);
    OneStep(s1, acts[1], [acts[2]] + ([acts[3]] + []), s);
    OneStep(Start, acts[0], [acts[1]] + ([acts[2]] + ([acts[3]] + [])), s);
    assert acts == [acts[0]] + ([acts[1]] + ([acts[2]] + ([acts[3]] + [])));
  }
}
