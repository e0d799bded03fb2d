/**
 * What the suspended-hook machine promises, over all of its runs.
 */
module HooksTheorems {
  import opened Options
  import opened Hooks
  import opened HooksRuns

  ghost predicate Reachable(s: State) {
    exists acts :: Run(Start, acts, s)
  }

  lemma ReachableInv(s: State)
    requires Reachable(s)
    ensures Inv(s)
  {
    var acts :| Run(Start, acts, s);
    StartInv();
    RunKeeps(Start, acts, s);
  }

  // ----- Exactly once -------------------------------------------------------

  function Count(hist: seq<Note>, op: nat, held: bool): nat {
    if hist == [] then
      0
    else
      var n := hist[|hist| - 1];
      Count(hist[..|hist| - 1], op, held)
      + (if n.op == op && (if held then n.Held? else n.Called? || n.Dropped?) then 1 else 0)
  }

  lemma {:induction false} LifeCounts(hist: seq<Note>, op: nat)
    requires Life(hist, op) != Wrong
    ensures Count(hist, op, false) == if Life(hist, op).Settled? then 1 else 0
    ensures Count(hist, op, true) == if Life(hist, op).Settled? || Life(hist, op).Waiting? then 1 else 0
  {
    if hist != [] {
      LifeCounts(hist[..|hist| - 1], op);
    }
  }

  // Over every run, every operation is held at most once, and what was held
  // has ended exactly once or is still listed - never both, never neither.
  lemma EndsExactlyOnce(s: State, op: nat)
    requires Reachable(s)
    ensures Count(s.hist, op, true) <= 1
    ensures Count(s.hist, op, true)
        == Count(s.hist, op, false) + (if exists h :: h in s.holds && h.op == op then 1 else 0)
  {
    ReachableInv(s);
    assert Tracks(s, op);
    LifeCounts(s.hist, op);
  }

  lemma LifePrefix(hist: seq<Note>, k: nat, op: nat)
    requires k < |hist|
    ensures Life(hist[..k + 1], op) == Lives(Life(hist[..k], op), op, hist[k])
  {
    LifeNext(hist[..k], hist[k], op);
    assert hist[..k + 1] == hist[..k] + [hist[k]];
  }

  lemma {:induction false} NeverWrongBefore(hist: seq<Note>, k: nat, op: nat)
    requires k <= |hist| && Life(hist, op) != Wrong
    ensures Life(hist[..k], op) != Wrong
    decreases |hist|
  {
    if k < |hist| {
      var last := |hist| - 1;
      NeverWrongBefore(hist[..last], k, op);
      assert hist[..last][..k] == hist[..k];
    } else {
      assert hist[..k] == hist;
    }
  }

  lemma {:induction false} WaitingWasHeld(hist: seq<Note>, op: nat) returns (j: nat)
    requires Life(hist, op).Waiting?
    ensures j < |hist| && hist[j] == Held(op, Life(hist, op).hold)
  {
    var last := |hist| - 1;
    if hist[last].op == op {
      j := last;
    } else {
      j := WaitingWasHeld(hist[..last], op);
    }
  }

  // A callback runs only for an operation whose suspending call had returned
  // before, and for a reason that is true of that hold: its own token, its
  // deadline passed, its module gone. The last two refuse it.
  lemma CalledForAReason(s: State, k: nat) returns (j: nat, h: Hold)
    requires Reachable(s) && k < |s.hist| && s.hist[k].Called?
    ensures j < k && s.hist[j] == Held(s.hist[k].op, h)
    ensures Just(h, s.hist[k].result, s.hist[k].why)
  {
    var op := s.hist[k].op;
    ReachableInv(s);
    assert Tracks(s, op);
    NeverWrongBefore(s.hist, k + 1, op);
    LifePrefix(s.hist, k, op);
    j := WaitingWasHeld(s.hist[..k], op);
    h := Life(s.hist[..k], op).hold;
  }

  // A client's exit ends only that client's holds.
  lemma DroppedWithItsClient(s: State, k: nat) returns (j: nat, h: Hold)
    requires Reachable(s) && k < |s.hist| && s.hist[k].Dropped?
    ensures j < k && s.hist[j] == Held(s.hist[k].op, h) && h.client == Some(s.hist[k].client)
  {
    var op := s.hist[k].op;
    ReachableInv(s);
    assert Tracks(s, op);
    NeverWrongBefore(s.hist, k + 1, op);
    LifePrefix(s.hist, k, op);
    j := WaitingWasHeld(s.hist[..k], op);
    h := Life(s.hist[..k], op).hold;
  }

  // ----- Settled for good ---------------------------------------------------

  lemma {:induction false} CancelledGrows(s: State, k: nat, who: nat)
    requires k <= |s.holds|
    ensures s.hist <= Cancelled(s, k, who).hist
    ensures Cancelled(s, k, who) == s.(holds := Cancelled(s, k, who).holds, hist := Cancelled(s, k, who).hist)
    decreases |s.holds| - k
  {
    if k < |s.holds| {
      if s.holds[k].client == Some(who) {
        CancelledGrows(Forget(s, k, who), k, who);
      } else {
        CancelledGrows(s, k + 1, who);
      }
    }
  }

  lemma StepGrows(s: State, a: Action)
    requires Enabled(s, a)
    ensures s.hist <= Do(s, a).hist
  {
    if a.Cancel? {
      CancelledGrows(s, 0, a.who);
    }
  }

  lemma {:induction false} RunGrows(s: State, acts: seq<Action>, t: State)
    requires Run(s, acts, t)
    ensures s.hist <= t.hist
    decreases |acts|
  {
    if acts != [] {
      StepGrows(s, acts[0]);
      RunGrows(Do(s, acts[0]), acts[1..], t);
    }
  }

  lemma {:induction false} EndIsEnd(hist: seq<Note>, more: seq<Note>, op: nat)
    requires Life(hist, op).Settled? || Life(hist, op).Decided?
    requires Life(hist + more, op) != Wrong
    ensures Life(hist + more, op) == Life(hist, op)
    decreases |more|
  {
    if more == [] {
      assert hist + more == hist;
    } else {
      var m := |more| - 1;
      LifeNext(hist + more[..m], more[m], op);
      assert hist + more == hist + more[..m] + [more[m]];
      EndIsEnd(hist, more[..m], op);
    }
  }

  // Once an operation is decided or its hold has ended, no later event of any
  // kind - a second answer, a deadline, an unload, an exit - touches it.
  lemma SettledForGood(s: State, acts: seq<Action>, t: State, op: nat)
    requires Inv(s) && Run(s, acts, t)
    requires Life(s.hist, op).Settled? || Life(s.hist, op).Decided?
    ensures Life(t.hist, op) == Life(s.hist, op)
  {
    RunKeeps(s, acts, t);
    RunGrows(s, acts, t);
    assert Tracks(t, op);
    assert t.hist == s.hist + t.hist[|s.hist|..];
    EndIsEnd(s.hist, t.hist[|s.hist|..], op);
  }

  // ----- Nothing is left behind ---------------------------------------------

  lemma {:induction false} CancelClears(s: State, k: nat, who: nat)
    requires k <= |s.holds|
    requires forall i :: 0 <= i < k ==> s.holds[i].client != Some(who)
    ensures forall h :: h in Cancelled(s, k, who).holds ==> h.client != Some(who)
    decreases |s.holds| - k
  {
    if k < |s.holds| {
      if s.holds[k].client == Some(who) {
        CancelClears(Forget(s, k, who), k, who);
      } else {
        CancelClears(s, k + 1, who);
      }
    }
  }

  lemma {:induction false} CancelSpares(s: State, k: nat, who: nat, h: Hold)
    requires k <= |s.holds| && h in s.holds && h.client != Some(who)
    ensures h in Cancelled(s, k, who).holds
    decreases |s.holds| - k
  {
    if k < |s.holds| {
      if s.holds[k].client == Some(who) {
        var i :| 0 <= i < |s.holds| && s.holds[i] == h;
        assert Without(s.holds, k)[if i < k then i else i - 1] == h;
        CancelSpares(Forget(s, k, who), k, who, h);
      } else {
        CancelSpares(s, k + 1, who, h);
      }
    }
  }

  lemma ExitClears(s: State, who: nat)
    ensures forall h :: h in s.holds && h.client != Some(who) ==> h in Do(s, Cancel(who)).holds
    ensures forall h :: h in Do(s, Cancel(who)).holds ==> h.client != Some(who)
  {
    CancelClears(s, 0, who);
    forall h | h in s.holds && h.client != Some(who) ensures h in Do(s, Cancel(who)).holds {
      CancelSpares(s, 0, who, h);
    }
  }

  // ----- The reported deadline ----------------------------------------------

  lemma {:induction false} EarliestIs(holds: seq<Hold>)
    requires forall h :: h in holds ==> h.deadline > 0
    ensures Earliest(holds) == 0 <==> holds == []
    ensures forall h :: h in holds ==> Earliest(holds) <= h.deadline
    ensures holds != [] ==> exists h :: h in holds && h.deadline == Earliest(holds)
  {
    if holds != [] {
      EarliestIs(holds[1..]);
      assert holds[0] in holds;
      if Earliest(holds) != holds[0].deadline {
        var h :| h in holds[1..] && h.deadline == Earliest(holds[1..]);
        assert h in holds;
      }
    }
  }

  // Zero exactly when nothing is held, and otherwise the least deadline of
  // all that are.
  lemma DeadlineIsLeast(s: State)
    requires Reachable(s)
    ensures Earliest(s.holds) == 0 <==> s.holds == []
    ensures forall h :: h in s.holds ==> Earliest(s.holds) <= h.deadline
    ensures s.holds != [] ==> exists h :: h in s.holds && h.deadline == Earliest(s.holds)
  {
    ReachableInv(s);
    EarliestIs(s.holds);
  }

  // ----- The timer ----------------------------------------------------------

  // Something will look at the holds no later than the earliest deadline: the
  // timer is set, for no later than that, or its own pass is under way and
  // will set it.
  ghost predicate Watched(s: State) {
    && (s.armed.Some? ==> forall h :: h in s.holds ==> s.armed.value <= h.deadline)
    && (s.armed.None? && s.holds != [] ==> TimerPass(s))
  }

  ghost predicate IsTimerPass(f: Frame) {
    f.Expiring? && f.timer
  }

  ghost predicate TimerPass(s: State) {
    exists i :: 0 <= i < |s.stack| && IsTimerPass(s.stack[i])
  }

  // Nothing, or one frame more, or one frame less that is not the timer's.
  ghost predicate PassStays(s: State, t: State) {
    || t.stack == s.stack
    || (t.stack != [] && t.stack[1..] == s.stack)
    || (s.stack != [] && s.stack[1..] == t.stack && !IsTimerPass(s.stack[0]))
  }

  lemma PassKept(s: State, t: State)
    requires PassStays(s, t) && TimerPass(s)
    ensures TimerPass(t)
  {
    var i :| 0 <= i < |s.stack| && IsTimerPass(s.stack[i]);
    if t.stack == s.stack {
      assert IsTimerPass(t.stack[i]);
    } else if t.stack != [] && t.stack[1..] == s.stack {
      assert t.stack[i + 1] == s.stack[i];
    } else {
      assert t.stack[i - 1] == s.stack[i];
    }
  }

  // Fewer holds, the same timer.
  lemma FewerWatched(s: State, t: State)
    requires Watched(s) && PassStays(s, t)
    requires t.armed == s.armed && forall h :: h in t.holds ==> h in s.holds
    ensures Watched(t)
  {
    if t.armed.None? && t.holds != [] {
      assert t.holds[0] in s.holds;
      PassKept(s, t);
    }
  }

  lemma GoWatched(s: State)
    requires Inv(s) && Watched(s) && Enabled(s, Go)
    ensures Watched(Do(s, Go))
  {
    var t, f := Do(s, Go), s.stack[0];
    if t.stack == s.stack {
      var test := if f.Expiring? then Due(f.now) else OwedBy(f.mod);
      assert |s.stack[1..]| != |s.stack|;
      WithoutIs(s.holds, First(s.holds, test));
      FewerWatched(s, t);
    } else if IsTimerPass(f) {
      EarliestIs(s.holds);
    } else {
      FewerWatched(s, t);
    }
  }

  lemma {:induction false} CancelledKeeps(s: State, k: nat, who: nat)
    requires k <= |s.holds|
    ensures forall h :: h in Cancelled(s, k, who).holds ==> h in s.holds
    decreases |s.holds| - k
  {
    if k < |s.holds| {
      if s.holds[k].client == Some(who) {
        CancelledKeeps(Forget(s, k, who), k, who);
      } else {
        CancelledKeeps(s, k + 1, who);
      }
    }
  }

  // The hold a returning call records, if it does.
  ghost predicate Records(s: State, a: Action) {
    a.Return? && a.result == Pending && |s.holds| < PENDING_MAX
  }

  // Whether the hold about to be recorded is due before the timer is.
  ghost predicate Overtakes(s: State, a: Action)
    requires Enabled(s, a)
  {
    Records(s, a) && s.armed.Some? && s.stack[0].deadline < s.armed.value
  }

  lemma ReturnWatched(s: State, a: Action)
    requires Inv(s) && Watched(s) && Enabled(s, a) && a.Return?
    ensures Watched(Do(s, a)) <==> !Overtakes(s, a)
  {
    var t, r := Do(s, a), Pop(s);
    if Records(s, a) {
      var h := HoldOf(s.stack[0], a.mod);
      assert t.holds == [h] + s.holds;
      assert forall g :: g in t.holds <==> g == h || g in s.holds;
      EarliestIs(t.holds);
    } else {
      FewerWatched(s, t);
    }
  }

  // The holds stay watched through every step but one: a hold recorded with a
  // deadline before the time the timer is already set for. The timer is not
  // moved, so that is exactly when the promise fails.
  lemma WatchedIff(s: State, a: Action)
    requires Inv(s) && Watched(s) && Enabled(s, a)
    ensures Watched(Do(s, a)) <==> !Overtakes(s, a)
  {
    var t := Do(s, a);
    match a
    case Return(_, _) => ReturnWatched(s, a);
    case Resume(token, _) =>
      var i := First(s.holds, HasToken(token));
      if i < |s.holds| {
        WithoutIs(s.holds, i);
      }
      FewerWatched(s, t);
    case Cancel(who) =>
      CancelledGrows(s, 0, who);
      CancelledKeeps(s, 0, who);
      FewerWatched(s, t);
    case Timer(now) =>
      assert IsTimerPass(t.stack[0]);
    case Go => GoWatched(s);
    case Suspend(_, _, _) => FewerWatched(s, t);
    case Expire(_) => FewerWatched(s, t);
    case Unload(_) => FewerWatched(s, t);
  }

  // No hold recorded on the way overtakes the timer.
  ghost predicate InOrder(s: State, acts: seq<Action>)
    decreases |acts|
  {
    acts == [] || (Enabled(s, acts[0]) && !Overtakes(s, acts[0]) && InOrder(Do(s, acts[0]), acts[1..]))
  }

  lemma {:induction false} RunWatched(s: State, acts: seq<Action>, t: State)
    requires Inv(s) && Watched(s) && Run(s, acts, t) && InOrder(s, acts)
    ensures Watched(t)
    decreases |acts|
  {
    if acts != [] {
      WatchedIff(s, acts[0]);
      StepKeeps(s, acts[0]);
      RunWatched(Do(s, acts[0]), acts[1..], t);
    }
  }

  // Two operations held, the second with the nearer deadline: it passes at 50
  // while the timer waits for 100.
  lemma DeadlineOvertaken() returns (acts: seq<Action>, s: State)
    ensures Run(Start, acts, s) && !Watched(s)
    ensures s.armed == Some(100) && Earliest(s.holds) == 50
  {
    var a0, a1, a2 := Suspend(None, 100, 1), Return(Pending, 7), Suspend(None, 50, 2);
    var h0, h1 := Hold(0, 1, 7, None, 100), Hold(1, 2, 7, None, 50);
    var s2 := State([h0], 1, Some(100), [], 1, [Opened(0, 1), Held(0, h0)]);
    var s3 := State([h0], 2, Some(100), [Running(1, 2, None, 50)], 2, [Opened(0, 1), Held(0, h0), Opened(1, 2)]);
    s := State([h1, h0], 2, Some(100), [], 2, [Opened(0, 1), Held(0, h0), Opened(1, 2), Held(1, h1)]);
    acts := [a0, a1, a2, a1];
    FirstHeld(a0, a1, h0, s2);
    SecondHeld(a2, a1, h0, h1, s2, s3, s);
    assert acts[1..] == [a1, a2, a1] && acts[1..][1..] == [a2, a1];
    assert h1 in s.holds;
    assert [h1, h0][1..] == [h0] && Earliest([h0]) == 100;
  }

  lemma SecondHeld(a: Action, b: Action, h0: Hold, h1: Hold, s: State, t: State, u: State)
    requires a == Suspend(None, 50, 2) && b == Return(Pending, 7) && h1 == Hold(1, 2, 7, None, 50)
    requires h0.token == 1 && s == State([h0], 1, Some(100), [], 1, [Opened(0, 1), Held(0, h0)])
    requires t == State([h0], 2, Some(100), [Running(1, 2, None, 50)], 2, s.hist + [Opened(1, 2)])
    requires u == State([h1, h0], 2, Some(100), [], 2, t.hist + [Held(1, h1)])
    ensures Run(s, [a, b], u)
  {
    assert Enabled(s, a) && Do(s, a) == t;
    assert Enabled(t, b) && Do(t, b) == u;
    assert [a, b][1..] == [b] && Run(t, [b], u);
  }

  lemma FirstHeld(a0: Action, a1: Action, h0: Hold, s2: State)
    requires a0 == Suspend(None, 100, 1) && a1 == Return(Pending, 7) && h0 == Hold(0, 1, 7, None, 100)
    requires s2 == State([h0], 1, Some(100), [], 1, [Opened(0, 1), Held(0, h0)])
    ensures Enabled(Start, a0) && Enabled(Do(Start, a0), a1) && Do(Do(Start, a0), a1) == s2
  {
    var s1 := State([], 1, None, [Running(0, 1, None, 100)], 1, [Opened(0, 1)]);
    assert Do(Start, a0) == s1;
    assert Earliest([h0]) == 100;
  }

  // ----- Tokens -------------------------------------------------------------

  ghost predicate TokenInv(s: State) {
    && (forall i :: 0 <= i < |s.hist| && s.hist[i].Opened? ==> s.hist[i].token <= s.last)
    && (forall i, j ::
            0 <= i < j < |s.hist| && s.hist[i].Opened? && s.hist[j].Opened? ==> s.hist[i].token < s.hist[j].token)
    && (forall h :: h in s.holds ==> Opened(h.op, h.token) in s.hist)
    && (forall i :: 0 <= i < |s.stack| && s.stack[i].Running? ==> Opened(s.stack[i].op, s.stack[i].token) in s.hist)
  }

  // No new token, and nothing held or running that was not before.
  lemma TokensStay(s: State, t: State)
    requires TokenInv(s) && s.last == t.last && s.hist <= t.hist
    requires forall i :: |s.hist| <= i < |t.hist| ==> !t.hist[i].Opened?
    requires forall h :: h in t.holds ==> h in s.holds || Opened(h.op, h.token) in s.hist
    requires forall i :: 0 <= i < |t.stack| && t.stack[i].Running? ==> t.stack[i] in s.stack
    ensures TokenInv(t)
  {
    forall n | n in s.hist ensures n in t.hist {
      var i :| 0 <= i < |s.hist| && s.hist[i] == n;
      assert t.hist[i] == n;
    }
    forall i | 0 <= i < |t.stack| && t.stack[i].Running? ensures Opened(t.stack[i].op, t.stack[i].token) in s.hist {
      var j :| 0 <= j < |s.stack| && s.stack[j] == t.stack[i];
    }
  }

  lemma {:induction false} CancelledNotes(s: State, k: nat, who: nat)
    requires k <= |s.holds|
    ensures s.hist <= Cancelled(s, k, who).hist
    ensures forall i :: |s.hist| <= i < |Cancelled(s, k, who).hist| ==> Cancelled(s, k, who).hist[i].Dropped?
    decreases |s.holds| - k
  {
    if k < |s.holds| {
      if s.holds[k].client == Some(who) {
        CancelledNotes(Forget(s, k, who), k, who);
      } else {
        CancelledNotes(s, k + 1, who);
      }
    }
  }

  lemma OpenTokens(s: State, a: Action)
    requires TokenInv(s) && Enabled(s, a) && a.Suspend? && a.count < TOKENS
    ensures TokenInv(Do(s, a))
  {
    var t := Do(s, a);
    assert a.count % TOKENS == a.count;
    var n := |s.hist|;
    assert t.hist[n] == Opened(s.ops, a.count);
    assert forall i :: 0 <= i < n ==> t.hist[i] == s.hist[i];
    assert forall i :: 0 < i < |t.stack| ==> t.stack[i] == s.stack[i - 1];
  }

  lemma GoTokens(s: State)
    requires TokenInv(s) && Enabled(s, Go)
    ensures TokenInv(Do(s, Go))
  {
    var t := Do(s, Go);
    assert forall i :: 0 <= i < |s.stack[1..]| ==> s.stack[1..][i] in s.stack;
    TokensStay(s, t);
  }

  lemma ReturnTokens(s: State, a: Action)
    requires TokenInv(s) && Enabled(s, a) && a.Return?
    ensures TokenInv(Do(s, a))
  {
    var t := Do(s, a);
    assert s.stack[0] in s.stack;
    assert forall i :: 0 <= i < |s.stack[1..]| ==> s.stack[1..][i] in s.stack;
    TokensStay(s, t);
  }

  lemma CancelTokens(s: State, who: nat)
    requires TokenInv(s)
    ensures TokenInv(Do(s, Cancel(who)))
  {
    CancelledGrows(s, 0, who);
    CancelledKeeps(s, 0, who);
    CancelledNotes(s, 0, who);
    TokensStay(s, Do(s, Cancel(who)));
  }

  lemma StepTokens(s: State, a: Action)
    requires TokenInv(s) && Enabled(s, a) && Do(s, a).last < TOKENS
    ensures TokenInv(Do(s, a))
  {
    match a
    case Suspend(_, _, _) => OpenTokens(s, a);
    case Cancel(who) => CancelTokens(s, who);
    case Return(_, _) => ReturnTokens(s, a);
    case Go => GoTokens(s);
    case Resume(_, _) => TokensStay(s, Do(s, a));
    case Expire(_) => TokensStay(s, Do(s, a));
    case Timer(_) => TokensStay(s, Do(s, a));
    case Unload(_) => TokensStay(s, Do(s, a));
  }

  lemma CounterGrows(s: State, a: Action)
    requires Enabled(s, a)
    ensures s.last <= Do(s, a).last
  {
    if a.Cancel? {
      CancelledGrows(s, 0, a.who);
    }
  }

  lemma {:induction false} RunTokens(s: State, acts: seq<Action>, t: State)
    requires Inv(s) && TokenInv(s) && Run(s, acts, t) && t.last < TOKENS
    ensures TokenInv(t) && s.last <= t.last
    decreases |acts|
  {
    if acts != [] {
      CounterGrows(s, acts[0]);
      RunCounter(Do(s, acts[0]), acts[1..], t);
      StepTokens(s, acts[0]);
      StepKeeps(s, acts[0]);
      RunTokens(Do(s, acts[0]), acts[1..], t);
    }
  }

  lemma {:induction false} RunCounter(s: State, acts: seq<Action>, t: State)
    requires Run(s, acts, t)
    ensures s.last <= t.last
    decreases |acts|
  {
    if acts != [] {
      CounterGrows(s, acts[0]);
      RunCounter(Do(s, acts[0]), acts[1..], t);
    }
  }

  // Until the counter has gone all the way round, a token names one operation
  // for good: answering with the token of one that is no longer held - or not
  // held yet - changes nothing at all.
  lemma StaleTokensDoNothing(s: State, op: nat, token: nat, result: Result)
    requires Reachable(s) && s.last < TOKENS
    requires Opened(op, token) in s.hist && !(exists h :: h in s.holds && h.op == op)
    ensures Do(s, Resume(token, result)) == s
  {
    var acts :| Run(Start, acts, s);
    StartInv();
    RunTokens(Start, acts, s);
    var i := First(s.holds, HasToken(token));
    if i < |s.holds| {
      OneOpening(s, op, s.holds[i]);
    }
  }

  lemma OneOpening(s: State, op: nat, h: Hold)
    requires TokenInv(s) && h in s.holds && Opened(op, h.token) in s.hist
    ensures h.op == op
  {
    var i :| 0 <= i < |s.hist| && s.hist[i] == Opened(op, h.token);
    var j :| 0 <= j < |s.hist| && s.hist[j] == Opened(h.op, h.token);
    assert i == j;
  }

  lemma SettleLife(s: State, i: nat, result: Result)
    requires Inv(s) && i < |s.holds|
    ensures Life(Settle(s, i, result, Answered(s.holds[i].token)).hist, s.holds[i].op) == Settled(Some(result))
  {
    var h := s.holds[i];
    assert h in s.holds;
    assert Tracks(s, h.op);
    LifeNext(s.hist, Called(h.op, result, Answered(h.token)), h.op);
  }

  // And answering with the token of one that is held settles that one.
  lemma ResumeReachesItsOwn(s: State, h: Hold, result: Result)
    requires Reachable(s) && s.last < TOKENS && h in s.holds
    ensures Life(Do(s, Resume(h.token, result)).hist, h.op) == Settled(Some(result))
  {
    var acts :| Run(Start, acts, s);
    StartInv();
    RunTokens(Start, acts, s);
    RunKeeps(Start, acts, s);
    var i := First(s.holds, HasToken(h.token));
    var k :| 0 <= k < |s.holds| && s.holds[k] == h;
    assert Passes(s.holds[k], HasToken(h.token));
    OneOpening(s, h.op, s.holds[i]);
    SettleLife(s, i, result);
  }

}
