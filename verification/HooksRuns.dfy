/**
 * Every run of the suspended-hook machine, callbacks coming back in anywhere,
 * leads each operation through exactly one life.
 */
module HooksRuns {
  import opened Lists
  import opened Options
  import opened Hooks

  lemma WithoutIs(holds: seq<Hold>, i: nat)
    requires i < |holds|
    requires forall j, k :: 0 <= j < k < |holds| ==> holds[j].op != holds[k].op
    ensures forall h :: h in Without(holds, i) <==> h in holds && h != holds[i]
    ensures forall h :: h in Without(holds, i) ==> h.op != holds[i].op
    ensures forall j, k :: 0 <= j < k < |holds| - 1 ==> Without(holds, i)[j].op != Without(holds, i)[k].op
  {
    TakenOut(holds, i);
  }

  // One hold ends, and its operation with it; no other notices.
  lemma EndOne(s: State, i: nat, n: Note, t: State)
    requires Inv(s) && i < |s.holds| && n.op == s.holds[i].op
    requires t == Log(s.(holds := Without(s.holds, i)), [n])
    requires Lives(Waiting(s.holds[i]), n.op, n).Settled?
    ensures Inv(t)
  {
    WithoutIs(s.holds, i);
    var h := s.holds[i];
    forall op ensures Tracks(t, op) {
      assert Tracks(s, op);
      LifeNext(s.hist, n, op);
      assert Asking(t, op) == Asking(s, op);
      if op == h.op {
        assert h in s.holds;
        assert Life(s.hist, op) == Waiting(h);
      }
    }
  }

  lemma AskingPush(s: State, f: Frame, op: nat)
    ensures Asking(Push(s, f), op) <==> Asking(s, op) || (f.Running? && f.op == op)
  {
    var t := Push(s, f);
    assert t.stack[0] == f;
    assert forall i :: 0 <= i < |s.stack| ==> t.stack[i + 1] == s.stack[i];
  }

  lemma AskingPop(s: State, op: nat)
    requires s.stack != []
    ensures Asking(s, op) <==> Asking(Pop(s), op) || (s.stack[0].Running? && s.stack[0].op == op)
  {
    AskingPush(Pop(s), s.stack[0], op);
    assert Push(Pop(s), s.stack[0]) == s;
  }

  // A frame of a pass over the holds comes or goes; the timer changes.
  lemma Unrelated(s: State, t: State)
    requires Inv(s) && t.holds == s.holds && t.ops == s.ops && t.hist == s.hist
    requires t.stack == s.stack
          || (t.stack != [] && !t.stack[0].Running? && t.stack[1..] == s.stack)
          || (s.stack != [] && !s.stack[0].Running? && s.stack[1..] == t.stack)
    ensures Inv(t)
  {
    if t.stack != s.stack {
      forall op ensures Tracks(t, op) {
        assert Tracks(s, op);
        if t.stack != [] && !t.stack[0].Running? && t.stack[1..] == s.stack {
          AskingPop(t, op);
        } else {
          AskingPop(s, op);
        }
      }
    } else {
      forall op ensures Tracks(t, op) {
        assert Tracks(s, op);
        assert Asking(s, op) == Asking(t, op);
      }
    }
  }

  lemma OpenKeeps(s: State, f: Frame, t: State, last: nat)
    requires Inv(s) && f.Running? && f.op == s.ops && f.deadline > 0
    requires t == Log(Push(s, f).(last := last, ops := s.ops + 1), [Opened(s.ops, f.token)])
    ensures Inv(t)
  {
    forall op ensures Tracks(t, op) {
      assert Tracks(s, op);
      LifeNext(s.hist, Opened(s.ops, f.token), op);
      AskingPush(s, f, op);
      assert Asking(t, op) == Asking(Push(s, f), op);
      assert Tracks(s, s.ops);
    }
    forall i | 0 < i < |t.stack| && t.stack[i].Running? ensures t.stack[i].op != s.ops {
      assert t.stack[i] == s.stack[i - 1];
      assert Asking(s, t.stack[i].op);
      assert Tracks(s, t.stack[i].op);
    }
    assert forall i :: 0 < i < |t.stack| ==> t.stack[i] == s.stack[i - 1];
  }

  // The frame on top and no other asks for its operation.
  lemma TopAsks(s: State)
    requires Inv(s) && s.stack != [] && s.stack[0].Running?
    ensures Life(s.hist, s.stack[0].op) == Asked && !Asking(Pop(s), s.stack[0].op)
  {
    var f, r := s.stack[0], Pop(s);
    assert Asking(s, f.op);
    assert Tracks(s, f.op);
    assert forall i :: 0 <= i < |r.stack| ==> r.stack[i] == s.stack[i + 1];
  }

  lemma DecideKeeps(s: State, result: Result, t: State)
    requires Inv(s) && s.stack != [] && s.stack[0].Running? && result != Pending
    requires t == Log(Pop(s), [Returned(s.stack[0].op, result)])
    ensures Inv(t)
  {
    var f := s.stack[0];
    TopAsks(s);
    forall op ensures Tracks(t, op) {
      assert Tracks(s, op);
      LifeNext(s.hist, Returned(f.op, result), op);
      AskingPop(s, op);
      assert Asking(t, op) == Asking(Pop(s), op);
    }
  }

  lemma HoldKeeps(s: State, mod: nat, t: State)
    requires Inv(s) && s.stack != [] && s.stack[0].Running? && |s.holds| < PENDING_MAX
    requires var h := HoldOf(s.stack[0], mod); t == Log(Pop(s).(holds := [h] + s.holds), [Held(h.op, h)])
    ensures Inv(t)
  {
    var f, h := s.stack[0], HoldOf(s.stack[0], mod);
    TopAsks(s);
    assert Tracks(s, f.op);
    assert forall g :: g in t.holds <==> g == h || g in s.holds;
    forall op ensures Tracks(t, op) {
      assert Tracks(s, op);
      LifeNext(s.hist, Held(h.op, h), op);
      AskingPop(s, op);
      assert Asking(t, op) == Asking(Pop(s), op);
    }
    forall i | 0 < i < |t.holds| ensures t.holds[i].op != f.op {
      assert t.holds[i] in s.holds;
    }
    assert forall i :: 0 < i < |t.holds| ==> t.holds[i] == s.holds[i - 1];
  }

  lemma {:induction false} CancelKeeps(s: State, k: nat, who: nat)
    requires Inv(s) && k <= |s.holds|
    ensures Inv(Cancelled(s, k, who))
    decreases |s.holds| - k
  {
    if k < |s.holds| {
      if s.holds[k].client == Some(who) {
        EndOne(s, k, Dropped(s.holds[k].op, who), Forget(s, k, who));
        CancelKeeps(Forget(s, k, who), k, who);
      } else {
        CancelKeeps(s, k + 1, who);
      }
    }
  }

  lemma GoKeeps(s: State)
    requires Inv(s) && Enabled(s, Go)
    ensures Inv(Do(s, Go))
  {
    var t := Do(s, Go);
    match s.stack[0]
    case Expiring(now, timer) =>
      var i := First(s.holds, Due(now));
      if i < |s.holds| {
        EndOne(s, i, Called(s.holds[i].op, Deny, Late(now)), t);
      } else {
        Unrelated(s, t);
      }
    case Dropping(mod) =>
      var i := First(s.holds, OwedBy(mod));
      if i < |s.holds| {
        EndOne(s, i, Called(s.holds[i].op, Deny, Unloaded(mod)), t);
      } else {
        Unrelated(s, t);
      }
  }

  lemma ReturnKeeps(s: State, result: Result, mod: nat)
    requires Inv(s) && Enabled(s, Return(result, mod))
    ensures Inv(Do(s, Return(result, mod)))
  {
    var f, r, t := s.stack[0], Pop(s), Do(s, Return(result, mod));
    if result != Pending {
      DecideKeeps(s, result, t);
    } else if |s.holds| >= PENDING_MAX {
      DecideKeeps(s, Deny, t);
    } else {
      var h := HoldOf(f, mod);
      var u := Log(r.(holds := [h] + s.holds), [Held(f.op, h)]);
      HoldKeeps(s, mod, u);
      Unrelated(u, t);
    }
  }

  lemma StepKeeps(s: State, a: Action)
    requires Inv(s) && Enabled(s, a)
    ensures Inv(Do(s, a))
  {
    var t := Do(s, a);
    match a
    case Suspend(client, deadline, count) =>
      OpenKeeps(s, Running(s.ops, count % TOKENS, client, deadline), t, count);
    case Return(result, mod) =>
      ReturnKeeps(s, result, mod);
    case Resume(token, result) =>
      var i := First(s.holds, HasToken(token));
      if i < |s.holds| {
        EndOne(s, i, Called(s.holds[i].op, result, Answered(token)), t);
      }
    case Cancel(who) =>
      CancelKeeps(s, 0, who);
    case Expire(now) =>
      Unrelated(s, t);
    case Timer(now) =>
      Unrelated(s, t);
    case Unload(mod) =>
      Unrelated(s, t);
    case Go =>
      GoKeeps(s);
  }

  lemma {:induction false} RunKeeps(s: State, acts: seq<Action>, t: State)
    requires Inv(s) && Run(s, acts, t)
    ensures Inv(t)
    decreases |acts|
  {
    if acts != [] {
      StepKeeps(s, acts[0]);
      RunKeeps(Do(s, acts[0]), acts[1..], t);
    }
  }

  lemma StartInv()
    ensures Inv(Start)
  {
  }
}
