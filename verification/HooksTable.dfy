/**
 * The table of holds as the server keeps it: a list, a token counter that
 * wraps, and a timer, each operation proved to take the step of the same name.
 */
module HooksTable {
  import opened Options
  import opened Hooks
  import opened HooksRuns
  import HooksTheorems

  // The tokens the counter has to step over.
  ghost function Taken(holds: seq<Hold>): set<nat> {
    {0} + set i | 0 <= i < |holds| :: holds[i].token
  }

  lemma {:induction false} TakenSize(holds: seq<Hold>)
    ensures |Taken(holds)| <= |holds| + 1
  {
    if holds == [] {
      assert Taken(holds) == {0};
    } else {
      var n := |holds| - 1;
      TakenSize(holds[..n]);
      assert Taken(holds) == Taken(holds[..n]) + {holds[n].token};
    }
  }

  // k tokens in a row, starting after `last`.
  ghost function Tried(last: nat, k: nat): set<nat> {
    if k == 0 then {} else Tried(last, k - 1) + {(last + k) % TOKENS}
  }

  lemma Apart(a: nat, b: nat)
    requires a < b < a + TOKENS
    ensures a % TOKENS != b % TOKENS
  {
  }

  lemma {:induction false} NotTried(last: nat, j: nat, k: nat)
    requires j < k < TOKENS
    ensures (last + k) % TOKENS !in Tried(last, j)
  {
    if j > 0 {
      Apart(last + j, last + k);
      NotTried(last, j - 1, k);
    }
  }

  lemma {:induction false} TriedSize(last: nat, k: nat)
    requires k < TOKENS
    ensures |Tried(last, k)| == k
  {
    if k > 0 {
      TriedSize(last, k - 1);
      NotTried(last, k - 1, k);
    }
  }

  // As many tokens as were stepped over, plus one, are not all taken.
  lemma TriedFew(holds: seq<Hold>, last: nat, k: nat)
    requires |holds| <= PENDING_MAX && k < TOKENS && Tried(last, k) <= Taken(holds)
    ensures k <= |Taken(holds)| <= PENDING_MAX + 1
  {
    TriedSize(last, k);
    SubsetSize(Tried(last, k), Taken(holds));
    TakenSize(holds);
  }

  lemma NotUsable(holds: seq<Hold>, count: nat)
    ensures Usable(holds, count) <==> count % TOKENS !in Taken(holds)
  {
  }

  lemma Advance(count: nat)
    ensures (count % TOKENS + 1) % TOKENS == (count + 1) % TOKENS
  {
  }

  lemma SubsetSize(a: set<nat>, b: set<nat>)
    requires a <= b
    ensures |a| <= |b|
  {
    if a != {} {
      var x :| x in a;
      SubsetSize(a - {x}, b - {x});
    }
  }

  // Every token from `last` on, k of them, was zero or outstanding.
  ghost predicate Stepping(holds: seq<Hold>, last: nat, k: nat) {
    && k <= PENDING_MAX + 1
    && Tried(last, k) <= Taken(holds)
    && forall c :: last < c <= last + k ==> !Usable(holds, c)
  }

  lemma StepOver(holds: seq<Hold>, last: nat, k: nat, t: nat, i: nat)
    requires |holds| <= PENDING_MAX && Stepping(holds, last, k)
    requires t == (last + k + 1) % TOKENS && i == First(holds, HasToken(t))
    ensures t != 0 && i == |holds| ==> NextCount(holds, last, last + k + 1)
    ensures t == 0 || i < |holds| ==> Stepping(holds, last, k + 1)
  {
    NotUsable(holds, last + k + 1);
    TakenIff(holds, t, i);
    if t == 0 || i < |holds| {
      TriedFew(holds, last, k + 1);
    }
  }

  lemma TakenIff(holds: seq<Hold>, t: nat, i: nat)
    requires i == First(holds, HasToken(t))
    ensures t in Taken(holds) <==> t == 0 || i < |holds|
  {
    if i == |holds| {
      assert forall j :: 0 <= j < |holds| ==> !Passes(holds[j], HasToken(t));
    } else {
      assert Passes(holds[i], HasToken(t));
    }
  }

  class Table {
    var holds: seq<Hold>
    var lastToken: nat
    var armed: Option<nat>
    ghost var s: State

    ghost predicate Valid()
      reads this
    {
      Inv(s) && s.holds == holds && s.armed == armed && lastToken == s.last % TOKENS
    }

    constructor ()
      ensures Valid() && s == Start
    {
      holds, lastToken, armed, s := [], 0, None, Start;
      StartInv();
    }

    method Find(token: nat) returns (i: nat)
      ensures i == First(holds, HasToken(token))
    {
      i := Walk(HasToken(token));
    }

    // The walk every search over the list makes.
    method Walk(t: Test) returns (i: nat)
      ensures i == First(holds, t)
    {
      i := 0;
      while i < |holds| && !Passes(holds[i], t)
        invariant i <= |holds| && First(holds, t) == i + First(holds[i..], t)
      {
        assert holds[i..][1..] == holds[i + 1..];
        i := i + 1;
      }
    }

    method Bump(ghost count: nat)
      requires lastToken == count % TOKENS
      modifies this`lastToken
      ensures lastToken == (count + 1) % TOKENS
    {
      Advance(count);
      lastToken := (lastToken + 1) % TOKENS;
    }

    // Advanced until it is neither zero nor outstanding. It always stops: there
    // are far more tokens than holds.
    method NewToken(ghost last: nat) returns (token: nat, ghost count: nat)
      requires |holds| <= PENDING_MAX && lastToken == last % TOKENS
      modifies this`lastToken
      ensures NextCount(holds, last, count) && token == lastToken == count % TOKENS
    {
      ghost var k := 0;
      TriedFew(holds, last, 0);
      while true
        invariant lastToken == (last + k) % TOKENS && Stepping(holds, last, k)
        decreases PENDING_MAX + 2 - k
      {
        Bump(last + k);
        var i := Find(lastToken);
        StepOver(holds, last, k, lastToken, i);
        k := k + 1;
        if lastToken != 0 && i == |holds| {
          return lastToken, last + k;
        }
      }
    }

    method Deadline() returns (earliest: nat)
      requires forall h :: h in holds ==> h.deadline > 0
      ensures earliest == Earliest(holds)
    {
      earliest := 0;
      for i := 0 to |holds|
        invariant i == 0 <==> earliest == 0
        invariant forall j :: 0 <= j < i ==> earliest <= holds[j].deadline
        invariant i > 0 ==> exists j :: 0 <= j < i && holds[j].deadline == earliest
      {
        assert holds[i] in holds;
        if earliest == 0 || holds[i].deadline < earliest {
          earliest := holds[i].deadline;
        }
      }
      HooksTheorems.EarliestIs(holds);
    }

    method ArmTimer()
      requires forall h :: h in holds ==> h.deadline > 0
      modifies this`armed
      ensures armed == if old(armed).Some? || Earliest(holds) == 0 then old(armed) else Some(Earliest(holds))
    {
      if armed.None? {
        var deadline := Deadline();
        if deadline != 0 {
          armed := Some(deadline);
        }
      }
    }

    // The first half of running a chain that may be held: a token is made out.
    method Begin(client: Option<nat>, deadline: nat) returns (token: nat)
      requires Valid() && deadline > 0
      modifies this
      ensures NextCount(old(holds), old(s.last), s.last) && token == s.last % TOKENS
      ensures Valid() && s == Do(old(s), Suspend(client, deadline, s.last))
    {
      ghost var count;
      token, count := NewToken(s.last);
      StepKeeps(s, Suspend(client, deadline, count));
      s := Do(s, Suspend(client, deadline, count));
    }

    // The second half: the chain has decided, or `mod` suspended it.
    method Finished(op: nat, token: nat, client: Option<nat>, deadline: nat, result: Result, mod: nat)
        returns (r: Result)
      requires Valid() && s.stack != [] && s.stack[0] == Running(op, token, client, deadline)
      modifies this
      ensures Valid() && s == Do(old(s), Return(result, mod))
      ensures r == if result == Pending && |old(holds)| >= PENDING_MAX then Deny else result
    {
      ghost var a := Return(result, mod);
      StepKeeps(s, a);
      if result != Pending {
        s := Do(s, a);
        return result;
      }
      if |holds| >= PENDING_MAX {
        s := Do(s, a);
        return Deny;
      }
      holds := [Hold(op, token, mod, client, deadline)] + holds;
      s := Do(s, a);
      assert s.holds == holds;
      ArmTimer();
      return Pending;
    }

    method Unlink(i: nat)
      requires i < |holds|
      modifies this`holds
      ensures holds == Without(old(holds), i)
    {
      holds := holds[..i] + holds[i + 1..];
    }

    // True if the token was outstanding; `op` is then what is called back.
    method Answer(token: nat, result: Result) returns (found: bool, op: nat)
      requires Valid()
      modifies this
      ensures Valid() && s == Do(old(s), Resume(token, result))
      ensures found == (exists h :: h in old(holds) && h.token == token)
      ensures found ==> s.hist == old(s.hist) + [Called(op, result, Answered(token))]
    {
      StepKeeps(s, Resume(token, result));
      var i := Find(token);
      found, op := i < |holds|, 0;
      if found {
        op := holds[i].op;
        assert holds[i] in holds;
        s := Do(s, Resume(token, result));
        Unlink(i);
      }
    }

    // One turn of the loop that refuses late holds: the walk starts over each
    // time, because a callback may have changed the list.
    method RefuseLate(now: nat, timer: bool) returns (op: Option<nat>)
      requires Valid() && s.stack != [] && s.stack[0] == Expiring(now, timer)
      modifies this
      ensures Valid() && s == Do(old(s), Go)
      ensures op.None? <==> forall h :: h in old(holds) ==> h.deadline > now
      ensures op.Some? ==> s.hist == old(s.hist) + [Called(op.value, Deny, Late(now))]
    {
      StepKeeps(s, Go);
      var i := Walk(Due(now));
      if i < |holds| {
        op := Some(holds[i].op);
        assert holds[i] in holds;
        s := Do(s, Go);
        Unlink(i);
      } else {
        op := None;
        s := Do(s, Go);
        if timer {
          ArmTimer();
        }
      }
    }

    method RefuseOwed(mod: nat) returns (op: Option<nat>)
      requires Valid() && s.stack != [] && s.stack[0] == Dropping(mod)
      modifies this
      ensures Valid() && s == Do(old(s), Go)
      ensures op.None? <==> forall h :: h in old(holds) ==> h.mod != mod
      ensures op.Some? ==> s.hist == old(s.hist) + [Called(op.value, Deny, Unloaded(mod))]
    {
      StepKeeps(s, Go);
      var i := Walk(OwedBy(mod));
      op := None;
      if i < |holds| {
        op := Some(holds[i].op);
        assert holds[i] in holds;
        s := Do(s, Go);
        Unlink(i);
      } else {
        s := Do(s, Go);
      }
    }

    method CancelClient(who: nat)
      requires Valid()
      modifies this
      ensures Valid() && s == Do(old(s), Cancel(who))
    {
      ghost var goal := Do(s, Cancel(who));
      var k := 0;
      while k < |holds|
        invariant k <= |holds| && Valid()
        invariant Cancelled(s, k, who) == goal
        decreases |holds| - k
      {
        if holds[k].client == Some(who) {
          EndOne(s, k, Dropped(s.holds[k].op, who), Forget(s, k, who));
          s := Forget(s, k, who);
          Unlink(k);
        } else {
          k := k + 1;
        }
      }
    }
  }
}
