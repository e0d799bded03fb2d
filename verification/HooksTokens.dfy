/**
 * Tokens after their counter has gone round: which hold an answer then
 * reaches, when that is the one it was meant for, and runs where it is not.
 */
module HooksTokens {
  import opened Options
  import opened Hooks
  import opened HooksTheorems

  // ----- The hold an answer reaches -----------------------------------------

  // Answering with a held operation's token settles that operation just when
  // none suspended since, and still held, was given the same token.
  lemma ResumeReachesItsOwnIff(s: State, k: nat, result: Result)
    requires Reachable(s) && k < |s.holds|
    ensures var h := s.holds[k];
            Life(Do(s, Resume(h.token, result)).hist, h.op) == Settled(Some(result))
            <==> forall j :: 0 <= j < k ==> s.holds[j].token != h.token
  {
    ReachableInv(s);
    var h := s.holds[k];
    var i := First(s.holds, HasToken(h.token));
    assert Passes(h, HasToken(h.token));
    SettleLife(s, i, result);
    if i < k {
      LifeNext(s.hist, Called(s.holds[i].op, result, Answered(h.token)), h.op);
      assert Tracks(s, h.op);
    }
  }

  // Answering with the token of an operation that is not held changes nothing
  // just when no operation that is held was given the same token; otherwise it
  // settles one of those.
  lemma StaleTokenDoesNothingIff(s: State, op: nat, token: nat, result: Result)
    requires Reachable(s)
    requires Opened(op, token) in s.hist && !(exists h :: h in s.holds && h.op == op)
    ensures Do(s, Resume(token, result)) == s <==> forall h :: h in s.holds ==> h.token != token
    ensures Do(s, Resume(token, result)) != s ==>
              exists h :: h in s.holds && h.op != op && h.token == token &&
                Life(Do(s, Resume(token, result)).hist, h.op) == Settled(Some(result))
  {
    ReachableInv(s);
    var i := First(s.holds, HasToken(token));
    if i < |s.holds| {
      assert s.holds[i] in s.holds && Passes(s.holds[i], HasToken(token));
      SettleLife(s, i, result);
    } else {
      assert forall k :: 0 <= k < |s.holds| ==> !Passes(s.holds[k], HasToken(token));
    }
  }

  // ----- All the way round --------------------------------------------------

  lemma {:induction false} RunOn(s: State, acts: seq<Action>, t: State, more: seq<Action>, u: State)
    requires Run(s, acts, t) && Run(t, more, u)
    ensures Run(s, acts + more, u)
    decreases |acts|
  {
    if acts == [] {
      assert acts + more == more;
    } else {
      RunOn(Do(s, acts[0]), acts[1..], t, more, u);
      assert (acts + more)[1..] == acts[1..] + more;
    }
  }

  lemma RunOne(s: State, a: Action)
    requires Enabled(s, a)
    ensures Run(s, [a], Do(s, a))
  {
  }

  // One operation more, decided on the spot.
  function Asked(s: State, count: nat): State {
    State(s.holds, count, s.armed, s.stack, s.ops + 1,
          s.hist + [Opened(s.ops, count % TOKENS), Returned(s.ops, Continue)])
  }

  lemma AskOne(s: State, count: nat)
    requires NextCount(s.holds, s.last, count)
    ensures Run(s, [Suspend(None, 1, count), Return(Continue, 0)], Asked(s, count))
  {
    var a, b := Suspend(None, 1, count), Return(Continue, 0);
    var u := Do(s, a);
    assert u.stack[1..] == s.stack;
    assert Do(u, b).hist == Asked(s, count).hist;
    RunOne(u, b);
    assert [a, b][1..] == [b];
  }

  // With nothing held, the counter reaches any value below the last.
  lemma {:induction false} Spin(s: State, n: nat) returns (acts: seq<Action>, t: State)
    requires s.holds == [] && s.last <= n < TOKENS
    ensures Run(s, acts, t) && s.hist <= t.hist && s.ops <= t.ops
    ensures t.holds == [] && t.stack == s.stack && t.last == n && t.armed == s.armed
    decreases n - s.last
  {
    if s.last == n {
      acts, t := [], s;
    } else {
      assert NextCount(s.holds, s.last, s.last + 1);
      AskOne(s, s.last + 1);
      var more;
      more, t := Spin(Asked(s, s.last + 1), n);
      acts := [Suspend(None, 1, s.last + 1), Return(Continue, 0)] + more;
      RunOn(s, [Suspend(None, 1, s.last + 1), Return(Continue, 0)], Asked(s, s.last + 1), more, t);
    }
  }

  // The next operation is given the first token again, and is held.
  lemma FirstAgain(s: State) returns (acts: seq<Action>, t: State, h: Hold)
    requires s.holds == [] && s.last == TOKENS - 1
    ensures Run(s, acts, t) && h == Hold(s.ops, 1, 0, None, 1)
    ensures t.holds == [h] && t.stack == s.stack && s.hist <= t.hist
  {
    var a, b := Suspend(None, 1, TOKENS + 1), Return(Pending, 0);
    assert NextCount(s.holds, s.last, TOKENS + 1);
    var u := Do(s, a);
    assert u.stack[1..] == s.stack;
    h := Hold(s.ops, 1, 0, None, 1);
    t := Do(u, b);
    RunOne(u, b);
    assert [a, b][1..] == [b];
    acts := [a, b];
  }

  // An operation long decided, and another with its token: answering the
  // first settles the second.
  lemma TokenComesRound() returns (acts: seq<Action>, s: State, h: Hold)
    ensures Run(Start, acts, s) && Opened(0, 1) in s.hist && s.holds == [h] && h.op != 0 && h.token == 1
    ensures Life(Do(s, Resume(1, Allow)).hist, h.op) == Settled(Some(Allow))
  {
    AskOne(Start, 1);
    var first := Asked(Start, 1);
    assert first.hist[0] == Opened(0, 1);
    var more, u := Spin(first, TOKENS - 1);
    var last;
    last, s, h := FirstAgain(u);
    var begin := [Suspend(None, 1, 1), Return(Continue, 0)];
    RunOn(Start, begin, first, more, u);
    RunOn(Start, begin + more, u, last, s);
    acts := begin + more + last;
    assert s.hist[0] == Opened(0, 1);
    ResumeReachesItsOwnIff(s, 0, Allow);
  }

  // The same while the first operation is still being asked, and held after
  // all: its hold goes in front, and the answer meant for the other reaches it.
  lemma TwoWithOneToken() returns (acts: seq<Action>, s: State)
    ensures Run(Start, acts, s) && |s.holds| == 2 && s.holds[0].token == s.holds[1].token == 1
    ensures Life(Do(s, Resume(1, Allow)).hist, s.holds[1].op) != Settled(Some(Allow))
  {
    var a, b := Suspend(None, 1, 1), Return(Pending, 0);
    RunOne(Start, a);
    var first := Do(Start, a);
    var more, u := Spin(first, TOKENS - 1);
    var last, t, h := FirstAgain(u);
    assert t.stack == [Running(0, 1, None, 1)];
    RunOne(t, b);
    s := Do(t, b);
    RunOn(Start, [a], first, more, u);
    RunOn(Start, [a] + more, u, last, t);
    RunOn(Start, [a] + more + last, t, [b], s);
    acts := [a] + more + last + [b];
    assert s.holds == [Hold(0, 1, 0, None, 1), h];
    ResumeReachesItsOwnIff(s, 1, Allow);
    assert s.holds[0].token == 1;
  }
}
