/**
 * Requests in flight: each one handed to a handler ends once - answered,
 * timed out, cancelled or dropped with the listener - and an answer that comes
 * after that is ignored.
 */
module HttpCalls {
  import opened Lists
  import opened Options

  datatype Call = Call(id: nat, pid: nat, mod: nat, deadline: nat)

  // A handler that has not returned yet, or a pass over the late requests, the
  // timer's own or another.
  datatype Frame = Handling(id: nat) | Expiring(now: nat, timer: bool)

  datatype Note =
    | Began(id: nat, call: Call)
    | Answered(id: nat, pid: nat)
    | TimedOut(id: nat, pid: nat, now: nat)    // 504
    | Cancelled(id: nat, pid: nat, mod: nat)   // its module left
    | Silenced(id: nat)                        // the listener left

  datatype State = State(
    calls: seq<Call>,
    listening: bool,
    last: nat,
    count: int,
    armed: Option<nat>,
    stack: seq<Frame>,
    hist: seq<Note>)

  datatype Action =
    | Dispatch(pid: nat, mod: nat, deadline: nat)   // a route was found
    | Return(done: bool)                            // the handler returns
    | Respond(id: nat)
    | Expire(now: nat)
    | Timer(now: nat)
    | ExpireNext
    | DropModule(mod: nat)
    | Listen
    | StopListening

  function Find(calls: seq<Call>, id: nat): (i: nat)
    ensures i <= |calls|
    ensures i < |calls| ==> calls[i].id == id
    ensures forall j :: 0 <= j < i ==> calls[j].id != id
  {
    if calls == [] || calls[0].id == id then 0 else 1 + Find(calls[1..], id)
  }

  function Late(calls: seq<Call>, now: nat): (i: nat)
    ensures i <= |calls|
    ensures i < |calls| ==> calls[i].deadline <= now
    ensures forall j :: 0 <= j < i ==> calls[j].deadline > now
  {
    if calls == [] || calls[0].deadline <= now then 0 else 1 + Late(calls[1..], now)
  }

  // The earliest deadline there is, or zero.
  function Earliest(calls: seq<Call>): nat {
    if calls == [] then 0
    else
      var rest := Earliest(calls[1..]);
      if rest == 0 || calls[0].deadline < rest then calls[0].deadline else rest
  }

  // The timer is set when there is something to wait for and it is not set yet.
  function Arm(s: State): State {
    if s.armed.Some? || Earliest(s.calls) == 0 then s else s.(armed := Some(Earliest(s.calls)))
  }

  function Take(s: State, i: nat, n: Note): State
    requires i < |s.calls|
  {
    s.(calls := s.calls[..i] + s.calls[i + 1..], count := s.count - 1, hist := s.hist + [n])
  }

  function Answer(s: State, id: nat): State {
    var i := Find(s.calls, id);
    if i < |s.calls| then Take(s, i, Answered(id, s.calls[i].pid)) else s
  }

  function Drops(s: State, k: nat, mod: nat): State
    requires k <= |s.calls|
    decreases |s.calls| - k
  {
    if k == |s.calls| then s
    else if s.calls[k].mod == mod then Drops(Take(s, k, Cancelled(s.calls[k].id, s.calls[k].pid, mod)), k, mod)
    else Drops(s, k + 1, mod)
  }

  function Silences(s: State): State
    decreases |s.calls|
  {
    if s.calls == [] then s else Silences(Take(s, 0, Silenced(s.calls[0].id)))
  }

  predicate Enabled(s: State, a: Action) {
    match a
    case Dispatch(_, _, deadline) => deadline > 0
    case Timer(now) => s.armed.Some? && s.armed.value <= now
    case Return(_) => s.stack != [] && s.stack[0].Handling?
    case ExpireNext => s.stack != [] && s.stack[0].Expiring?
    case _ => true
  }

  function Do(s: State, a: Action): State
    requires Enabled(s, a)
  {
    match a
    case Dispatch(pid, mod, deadline) =>
      if !s.listening then
        s
      else
        var c := Call(s.last + 1, pid, mod, deadline);
        s.(calls := [c] + s.calls, last := s.last + 1, count := s.count + 1,
           stack := [Handling(c.id)] + s.stack, hist := s.hist + [Began(c.id, c)])
    case Return(done) =>
      var t := s.(stack := s.stack[1..]);
      if done then Answer(t, s.stack[0].id) else Arm(t)
    case Respond(id) => Answer(s, id)
    case Expire(now) => s.(stack := [Expiring(now, false)] + s.stack)
    case Timer(now) => s.(armed := None, stack := [Expiring(now, true)] + s.stack)
    case ExpireNext =>
      var i := Late(s.calls, s.stack[0].now);
      if i < |s.calls| then Take(s, i, TimedOut(s.calls[i].id, s.calls[i].pid, s.stack[0].now))
      else if s.stack[0].timer then Arm(s.(stack := s.stack[1..]))
      else s.(stack := s.stack[1..])
    case DropModule(mod) => Drops(s, 0, mod)
    case Listen => s.(listening := true)
    case StopListening => if s.listening then Silences(s.(listening := false)) else s
  }

  const Start := State([], false, 0, 0, None, [], [])

  ghost predicate Run(s: State, acts: seq<Action>, t: State)
    decreases |acts|
  {
    if acts == [] then t == s else Enabled(s, acts[0]) && Run(Do(s, acts[0]), acts[1..], t)
  }

  // ----- The life of a request ----------------------------------------------

  datatype Phase = Unborn | Open(call: Call) | Ended | Wrong

  // Why a request may end as it does: answered to its own connection, late, or
  // left behind by its own module.
  predicate Just(c: Call, n: Note) {
    match n
    case Began(_, _) => false
    case Answered(_, pid) => pid == c.pid
    case TimedOut(_, pid, now) => pid == c.pid && c.deadline <= now
    case Cancelled(_, pid, mod) => pid == c.pid && c.mod == mod
    case Silenced(_) => true
  }

  function Lives(p: Phase, id: nat, n: Note): Phase {
    if n.id != id then p
    else if n.Began? then (if p == Unborn && n.call.id == id then Open(n.call) else Wrong)
    else if p.Open? && Just(p.call, n) then Ended
    else Wrong
  }

  function Life(hist: seq<Note>, id: nat): Phase {
    if hist == [] then Unborn else Lives(Life(hist[..|hist| - 1], id), id, hist[|hist| - 1])
  }

  lemma LifeNext(hist: seq<Note>, n: Note, id: nat)
    ensures Life(hist + [n], id) == Lives(Life(hist, id), id, n)
  {
    assert (hist + [n])[..|hist|] == hist;
  }

  ghost predicate Tracks(s: State, id: nat) {
    match Life(s.hist, id)
    case Unborn => id > s.last || id == 0
    case Open(c) => id <= s.last && c.id == id && c in s.calls
    case Ended => id <= s.last && forall c :: c in s.calls ==> c.id != id
    case Wrong => false
  }

  ghost predicate Inv(s: State) {
    && (forall i, j :: 0 <= i < j < |s.calls| ==> s.calls[i].id != s.calls[j].id)
    && (forall c :: c in s.calls ==> 0 < c.id <= s.last && c.deadline > 0)
    && s.count == |s.calls|
    && (!s.listening ==> s.calls == [])
    && forall id :: Tracks(s, id)
  }

  lemma WithoutIs(calls: seq<Call>, i: nat)
    requires i < |calls| && forall j, k :: 0 <= j < k < |calls| ==> calls[j].id != calls[k].id
    ensures var w := calls[..i] + calls[i + 1..];
            && (forall c :: c in w <==> c in calls && c != calls[i])
            && (forall c :: c in w ==> c.id != calls[i].id)
            && forall j, k :: 0 <= j < k < |w| ==> w[j].id != w[k].id
  {
    TakenOut(calls, i);
  }

  // All of the invariant but that nothing is open when nobody listens.
  ghost predicate Tracked(s: State) {
    && (forall i, j :: 0 <= i < j < |s.calls| ==> s.calls[i].id != s.calls[j].id)
    && (forall c :: c in s.calls ==> 0 < c.id <= s.last && c.deadline > 0)
    && s.count == |s.calls|
    && forall id :: Tracks(s, id)
  }

  lemma TakeKeeps(s: State, i: nat, n: Note)
    requires Tracked(s) && i < |s.calls| && n.id == s.calls[i].id && Just(s.calls[i], n)
    ensures Tracked(Take(s, i, n))
  {
    var t, c := Take(s, i, n), s.calls[i];
    WithoutIs(s.calls, i);
    assert c in s.calls;
    forall id ensures Tracks(t, id) {
      assert Tracks(s, id);
      LifeNext(s.hist, n, id);
    }
  }

  lemma {:induction false} EarliestIs(calls: seq<Call>)
    requires forall c :: c in calls ==> c.deadline > 0
    ensures Earliest(calls) == 0 <==> calls == []
    ensures forall c :: c in calls ==> Earliest(calls) <= c.deadline
    ensures calls != [] ==> exists c :: c in calls && c.deadline == Earliest(calls)
  {
    if calls != [] {
      EarliestIs(calls[1..]);
      assert calls[0] in calls;
      assert forall c :: c in calls ==> c == calls[0] || c in calls[1..];
    }
  }

  lemma Aside(s: State, t: State)
    requires Tracked(s) && t.calls == s.calls && t.last == s.last && t.count == s.count && t.hist == s.hist
    ensures Tracked(t)
  {
    forall id ensures Tracks(t, id) {
      assert Tracks(s, id);
    }
  }

  lemma BeginKeeps(s: State, c: Call, t: State)
    requires Tracked(s) && c.id == s.last + 1 && c.deadline > 0
    requires t.calls == [c] + s.calls && t.last == s.last + 1 && t.count == s.count + 1
        && t.hist == s.hist + [Began(c.id, c)]
    ensures Tracked(t)
  {
    assert forall i :: 0 < i < |t.calls| ==> t.calls[i] == s.calls[i - 1] && s.calls[i - 1] in s.calls;
    assert t.calls[0] == c;
    forall id ensures Tracks(t, id) {
      assert Tracks(s, id);
      LifeNext(s.hist, Began(c.id, c), id);
    }
  }

  lemma {:induction false} DropsKeeps(s: State, k: nat, mod: nat)
    requires Tracked(s) && k <= |s.calls|
    ensures Tracked(Drops(s, k, mod)) && Drops(s, k, mod).listening == s.listening
    ensures s.calls == [] ==> Drops(s, k, mod).calls == []
    decreases |s.calls| - k
  {
    if k < |s.calls| {
      if s.calls[k].mod == mod {
        var n := Cancelled(s.calls[k].id, s.calls[k].pid, mod);
        TakeKeeps(s, k, n);
        DropsKeeps(Take(s, k, n), k, mod);
      } else {
        DropsKeeps(s, k + 1, mod);
      }
    }
  }

  lemma {:induction false} SilencesKeeps(s: State)
    requires Tracked(s)
    ensures Tracked(Silences(s)) && Silences(s).calls == [] && Silences(s).listening == s.listening
    decreases |s.calls|
  {
    if s.calls != [] {
      TakeKeeps(s, 0, Silenced(s.calls[0].id));
      SilencesKeeps(Take(s, 0, Silenced(s.calls[0].id)));
    }
  }

  lemma AnswerKeeps(s: State, id: nat)
    requires Inv(s)
    ensures Inv(Answer(s, id))
  {
    var i := Find(s.calls, id);
    if i < |s.calls| {
      TakeKeeps(s, i, Answered(id, s.calls[i].pid));
    }
  }

  lemma StepKeeps(s: State, a: Action)
    requires Inv(s) && Enabled(s, a)
    ensures Inv(Do(s, a))
  {
    match a
    case Dispatch(pid, mod, deadline) =>
      if s.listening {
        BeginKeeps(s, Call(s.last + 1, pid, mod, deadline), Do(s, a));
      }
    case Return(done) =>
      Aside(s, s.(stack := s.stack[1..]));
      if done {
        AnswerKeeps(s.(stack := s.stack[1..]), s.stack[0].id);
      } else {
        Aside(s.(stack := s.stack[1..]), Do(s, a));
      }
    case Respond(id) => AnswerKeeps(s, id);
    case Expire(_) => Aside(s, Do(s, a));
    case Timer(_) => Aside(s, Do(s, a));
    case ExpireNext =>
      var i := Late(s.calls, s.stack[0].now);
      if i < |s.calls| {
        TakeKeeps(s, i, TimedOut(s.calls[i].id, s.calls[i].pid, s.stack[0].now));
      } else {
        Aside(s, Do(s, a));
      }
    case DropModule(mod) => DropsKeeps(s, 0, mod);
    case Listen => Aside(s, Do(s, a));
    case StopListening =>
      if s.listening {
        Aside(s, s.(listening := false));
        SilencesKeeps(s.(listening := false));
      }
  }

  lemma {:induction false} RunKeeps(s: State, acts: seq<Action>, t: State)
    requires Inv(s) && Run(s, acts, t)
    ensures Inv(t)
    decreases |acts|
  {
    if acts != [] {
      StepKeeps(s, acts[0]);
      RunKeeps(Do(s, acts[0]), acts[1..], t);
    }
  }

  // ----- What is promised ---------------------------------------------------

  ghost predicate Reachable(s: State) {
    exists acts :: Run(Start, acts, s)
  }

  lemma ReachableInv(s: State)
    requires Reachable(s)
    ensures Inv(s)
  {
    var acts :| Run(Start, acts, s);
    RunKeeps(Start, acts, s);
  }

  function Ends(hist: seq<Note>, id: nat): nat {
    if hist == [] then 0
    else Ends(hist[..|hist| - 1], id) + (if hist[|hist| - 1].id == id && !hist[|hist| - 1].Began? then 1 else 0)
  }

  lemma {:induction false} LifeCounts(hist: seq<Note>, id: nat)
    requires Life(hist, id) != Wrong
    ensures Ends(hist, id) == if Life(hist, id) == Ended then 1 else 0
  {
    if hist != [] {
      LifeCounts(hist[..|hist| - 1], id);
    }
  }

  // Every request a handler was given is open or has ended once, never both,
  // and what is reported as in flight is what is open.
  lemma EndsExactlyOnce(s: State, id: nat)
    requires Reachable(s) && 0 < id <= s.last
    ensures Ends(s.hist, id) + (if exists c :: c in s.calls && c.id == id then 1 else 0) == 1
    ensures s.count == |s.calls|
  {
    ReachableInv(s);
    assert Tracks(s, id);
    LifeCounts(s.hist, id);
  }

  // While a request is open there is a listener to answer it through.
  lemma AlwaysSomewhereToAnswer(s: State)
    requires Reachable(s) && s.calls != []
    ensures s.listening
  {
    ReachableInv(s);
  }

  lemma {:induction false} NeverWrongBefore(hist: seq<Note>, k: nat, id: nat)
    requires k <= |hist| && Life(hist, id) != Wrong
    ensures Life(hist[..k], id) != Wrong
    decreases |hist|
  {
    if k < |hist| {
      var last := |hist| - 1;
      NeverWrongBefore(hist[..last], k, id);
      assert hist[..last][..k] == hist[..k];
    } else {
      assert hist[..k] == hist;
    }
  }

  lemma {:induction false} OpenBegan(hist: seq<Note>, id: nat) returns (j: nat)
    requires Life(hist, id).Open?
    ensures j < |hist| && hist[j] == Began(id, Life(hist, id).call)
  {
    var last := |hist| - 1;
    if hist[last].id == id {
      j := last;
    } else {
      j := OpenBegan(hist[..last], id);
    }
  }

  // Each end is of a request that had begun, goes to the connection it came
  // from, and has a reason: 504 only past the deadline, a cancel only with the
  // module whose route it was.
  lemma EndsForAReason(s: State, k: nat) returns (j: nat, c: Call)
    requires Reachable(s) && k < |s.hist| && !s.hist[k].Began?
    ensures j < k && s.hist[j] == Began(s.hist[k].id, c) && Just(c, s.hist[k])
  {
    var id := s.hist[k].id;
    ReachableInv(s);
    assert Tracks(s, id);
    NeverWrongBefore(s.hist, k + 1, id);
    LifeNext(s.hist[..k], s.hist[k], id);
    assert s.hist[..k + 1] == s.hist[..k] + [s.hist[k]];
    j := OpenBegan(s.hist[..k], id);
    c := Life(s.hist[..k], id).call;
  }

  lemma {:induction false} DropsClear(s: State, k: nat, mod: nat)
    requires k <= |s.calls| && forall i :: 0 <= i < k ==> s.calls[i].mod != mod
    ensures forall c :: c in Drops(s, k, mod).calls ==> c.mod != mod
    ensures forall c :: c in s.calls && c.mod != mod ==> c in Drops(s, k, mod).calls
    decreases |s.calls| - k
  {
    if k < |s.calls| {
      if s.calls[k].mod == mod {
        var t := Take(s, k, Cancelled(s.calls[k].id, s.calls[k].pid, mod));
        DropsClear(t, k, mod);
        forall c | c in s.calls && c.mod != mod ensures c in t.calls {
          var i :| 0 <= i < |s.calls| && s.calls[i] == c;
          assert t.calls[if i < k then i else i - 1] == c;
        }
      } else {
        DropsClear(s, k + 1, mod);
      }
    }
  }

  // ----- The list -----------------------------------------------------------

  class Calls {
    var calls: seq<Call>
    var listening: bool
    var last: nat
    var count: int
    var armed: Option<nat>
    ghost var s: State

    ghost predicate Valid()
      reads this
    {
      && Inv(s) && s.calls == calls && s.listening == listening && s.last == last && s.count == count
      && s.armed == armed
    }

    constructor ()
      ensures Valid() && s == Start
    {
      calls, listening, last, count, armed, s := [], false, 0, 0, None, Start;
    }

    method TakeCall(id: nat) returns (call: Option<Call>)
      modifies this`calls
      ensures var i := Find(old(calls), id);
              if i < |old(calls)|
              then call == Some(old(calls)[i]) && calls == old(calls)[..i] + old(calls)[i + 1..]
              else call == None && calls == old(calls)
    {
      var i := 0;
      assert calls[0..] == calls;
      while i < |calls|
        invariant i <= |calls| && Find(calls, id) == i + Find(calls[i..], id)
      {
        if calls[i].id == id {
          call := Some(calls[i]);
          calls := calls[..i] + calls[i + 1..];
          return;
        }
        assert calls[i..][1..] == calls[i + 1..];
        i := i + 1;
      }
      call := None;
    }

    method Deadline() returns (earliest: nat)
      requires forall c :: c in calls ==> c.deadline > 0
      ensures earliest == Earliest(calls)
    {
      earliest := 0;
      for i := 0 to |calls|
        invariant i == 0 <==> earliest == 0
        invariant forall j :: 0 <= j < i ==> earliest <= calls[j].deadline
        invariant i > 0 ==> exists j :: 0 <= j < i && calls[j].deadline == earliest
      {
        assert calls[i] in calls;
        if earliest == 0 || calls[i].deadline < earliest {
          earliest := calls[i].deadline;
        }
      }
      EarliestIs(calls);
    }

    method ArmTimer()
      requires forall c :: c in calls ==> c.deadline > 0
      modifies this`armed
      ensures armed == if old(armed).Some? || Earliest(calls) == 0 then old(armed) else Some(Earliest(calls))
    {
      if armed.Some? {
        return;
      }
      var deadline := Deadline();
      if deadline != 0 {
        armed := Some(deadline);
      }
    }

    // A request for which a route was found; the handler runs next.
    method Begin(pid: nat, mod: nat, deadline: nat) returns (id: Option<nat>)
      requires Valid() && deadline > 0
      modifies this
      ensures Valid() && s == Do(old(s), Dispatch(pid, mod, deadline))
      ensures id == if old(listening) then Some(old(last) + 1) else None
    {
      StepKeeps(s, Dispatch(pid, mod, deadline));
      s := Do(s, Dispatch(pid, mod, deadline));
      if !listening {
        return None;
      }
      last := last + 1;
      calls := [Call(last, pid, mod, deadline)] + calls;
      count := count + 1;
      return Some(last);
    }

    // The handler has returned. If it is done and did not answer by itself,
    // its connection is answered now.
    method Returned(id: nat, done: bool) returns (answer: Option<nat>)
      requires Valid() && s.stack != [] && s.stack[0] == Handling(id)
      modifies this
      ensures Valid() && s == Do(old(s), Return(done))
      ensures answer.Some? ==> s.hist == old(s.hist) + [Answered(id, answer.value)]
      ensures answer.None? ==> s.hist == old(s.hist)
    {
      StepKeeps(s, Return(done));
      s := Do(s, Return(done));
      answer := None;
      if done {
        var call := TakeCall(id);
        if call.Some? {
          answer := Some(call.value.pid);
          count := count - 1;
        }
      } else {
        ArmTimer();
      }
    }

    method RespondTo(id: nat) returns (answer: Option<nat>)
      requires Valid()
      modifies this
      ensures Valid() && s == Do(old(s), Respond(id))
      ensures answer.Some? ==> s.hist == old(s.hist) + [Answered(id, answer.value)]
      ensures answer.None? ==> s.hist == old(s.hist)
    {
      StepKeeps(s, Respond(id));
      s := Do(s, Respond(id));
      var call := TakeCall(id);
      if call.None? {
        return None;
      }
      count := count - 1;
      return Some(call.value.pid);
    }

    method FindLate(now: nat) returns (i: nat)
      ensures i == Late(calls, now)
    {
      i := 0;
      assert calls[0..] == calls;
      while i < |calls| && calls[i].deadline > now
        invariant i <= |calls| && Late(calls, now) == i + Late(calls[i..], now)
      {
        assert calls[i..][1..] == calls[i + 1..];
        i := i + 1;
      }
    }

    // One turn of the pass over the late requests: 504 for the next. When the
    // timer's own pass is over the timer is set again.
    method ExpireOne(now: nat, timer: bool) returns (answer: Option<nat>)
      requires Valid() && s.stack != [] && s.stack[0] == Expiring(now, timer)
      modifies this
      ensures Valid() && s == Do(old(s), ExpireNext)
      ensures answer.None? <==> forall c :: c in old(calls) ==> c.deadline > now
    {
      var i := FindLate(now);
      assert forall c :: c in calls ==> exists j :: 0 <= j < |calls| && calls[j] == c;
      StepKeeps(s, ExpireNext);
      s := Do(s, ExpireNext);
      if i == |calls| {
        if timer {
          ArmTimer();
        }
        return None;
      }
      assert calls[i] in calls;
      answer := Some(calls[i].pid);
      calls := calls[..i] + calls[i + 1..];
      count := count - 1;
    }

    method Drop(mod: nat)
      requires Valid()
      modifies this
      ensures Valid() && s == Do(old(s), DropModule(mod))
    {
      ghost var goal := Drops(s, 0, mod);
      var k := 0;
      while k < |calls|
        invariant k <= |calls| && Valid() && Drops(s, k, mod) == goal
        decreases |calls| - k
      {
        if calls[k].mod == mod {
          ghost var n := Cancelled(calls[k].id, calls[k].pid, mod);
          TakeKeeps(s, k, n);
          s := Take(s, k, n);
          calls := calls[..k] + calls[k + 1..];
          count := count - 1;
        } else {
          k := k + 1;
        }
      }
    }

    method Stop()
      requires Valid()
      modifies this
      ensures Valid() && s == Do(old(s), StopListening) && calls == []
    {
      StepKeeps(s, StopListening);
      s := Do(s, StopListening);
      if !listening {
        return;
      }
      listening := false;
      ghost var goal := s;
      while calls != []
        invariant count == |calls| && s == goal && !listening && last == old(last) && armed == old(armed)
        decreases |calls|
      {
        calls := calls[1..];
        count := count - 1;
      }
      SilencedLast(old(s).(listening := false));
    }
  }

  lemma {:induction false} SilencedLast(s: State)
    ensures Silences(s).last == s.last && Silences(s).count == s.count - |s.calls| && Silences(s).calls == []
    ensures Silences(s).listening == s.listening && Silences(s).armed == s.armed && Silences(s).stack == s.stack
    decreases |s.calls|
  {
    if s.calls != [] {
      SilencedLast(Take(s, 0, Silenced(s.calls[0].id)));
    }
  }
}
