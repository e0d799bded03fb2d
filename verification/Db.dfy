/**
 * Calls to the database: each accepted one stays in a table until it is
 * answered, failed or dropped. Callbacks and the driver itself come back in
 * from inside, so a call in progress is a frame on a stack.
 */
module Db {
  import opened Lists
  import opened Options

  // A call in the table; `wants` says whether there is a callback to run.
  datatype Call = Call(id: nat, wants: bool, owner: Option<nat>)

  // A driver is known by the module that owns it and by when it registered.
  datatype Driver = Driver(mod: Option<nat>, nth: nat)

  // What is half done: a call the driver is being asked to take, a callback
  // that is running with the result it was given, or the failing of everything
  // left.
  datatype Frame = Submitting(id: nat) | Calling(result: Option<nat>) | Failing

  datatype Note =
    | Placed(id: nat, call: Call)
    | Withdrawn(id: nat)               // the driver refused it
    | Completed(id: nat, called: bool) // the driver answered it
    | Failed(id: nat, called: bool)    // the driver went away
    | Dropped(id: nat, mod: nat)       // its module went away
    | Delivered(result: nat, from: nat)
    | Released(result: nat, to: nat)
    | Leaked(result: nat)

  datatype State = State(
    calls: seq<Call>,
    driver: Option<Driver>,
    drivers: nat,
    configured: bool,
    next: nat,
    results: nat,
    pending: int,
    stack: seq<Frame>,
    hist: seq<Note>)

  datatype Action =
    | Submit(owner: Option<nat>, wants: bool)
    | Answer(ok: bool)                        // the driver returns from being asked
    | Complete(id: nat, data: Option<nat>)    // with data, from the nth driver
    | Release                                 // the callback returns
    | Register(mod: Option<nat>)
    | Unregister(mod: Option<nat>)
    | FailNext
    | DropModule(gone: nat)
    | Configure(on: bool)

  function Find(calls: seq<Call>, id: nat): (i: nat)
    ensures i <= |calls|
    ensures i < |calls| ==> calls[i].id == id
    ensures forall j :: 0 <= j < i ==> calls[j].id != id
  {
    if calls == [] || calls[0].id == id then 0 else 1 + Find(calls[1..], id)
  }

  function Take(s: State, i: nat, n: Note): State
    requires i < |s.calls|
  {
    s.(calls := s.calls[..i] + s.calls[i + 1..], pending := s.pending - 1, hist := s.hist + [n])
  }

  function Push(s: State, f: Frame): State {
    s.(stack := [f] + s.stack)
  }

  function Pop(s: State): State
    requires s.stack != []
  {
    s.(stack := s.stack[1..])
  }

  // Every call of a module from k on, dropped in silence.
  function Drops(s: State, k: nat, mod: nat): State
    requires k <= |s.calls|
    decreases |s.calls| - k
  {
    if k == |s.calls| then s
    else if s.calls[k].owner == Some(mod) then Drops(Take(s, k, Dropped(s.calls[k].id, mod)), k, mod)
    else Drops(s, k + 1, mod)
  }

  function Withdraw(s: State, mod: Option<nat>): State {
    if s.driver.Some? && s.driver.value.mod == mod then Push(s.(driver := None), Failing) else s
  }

  predicate Enabled(s: State, a: Action) {
    match a
    case Answer(_) => s.stack != [] && s.stack[0].Submitting?
    case Complete(_, Some(from)) => from < s.drivers
    case Release => s.stack != [] && s.stack[0].Calling?
    case FailNext => s.stack != [] && s.stack[0].Failing?
    case _ => true
  }

  // Back to whatever driver there is, if there is one.
  function Return(s: State, r: nat): State {
    s.(hist := s.hist + [if s.driver.Some? then Released(r, s.driver.value.nth) else Leaked(r)])
  }

  function Deliver(s: State, data: Option<nat>): State {
    if data.None? then s
    else s.(results := s.results + 1, hist := s.hist + [Delivered(s.results, data.value)])
  }

  // The result goes back when the callback returns, and at once if there is no
  // callback to run.
  function Finish(s: State, id: nat, data: Option<nat>): State {
    var i := Find(s.calls, id);
    var s1 := if i < |s.calls| then Take(s, i, Completed(id, s.calls[i].wants)) else s;
    var s2 := Deliver(s1, data);
    if i < |s.calls| && s.calls[i].wants then Push(s2, Calling(if data.Some? then Some(s.results) else None))
    else if data.Some? then Return(s2, s.results)
    else s2
  }

  function Do(s: State, a: Action): State
    requires Enabled(s, a)
  {
    match a
    case Submit(owner, wants) =>
      if s.driver.None? || !s.configured then
        s
      else
        var c := Call(s.next, wants, owner);
        Push(s.(calls := [c] + s.calls, next := s.next + 1, pending := s.pending + 1,
          hist := s.hist + [Placed(c.id, c)]),
             Submitting(c.id))
    case Answer(ok) =>
      var i := Find(s.calls, s.stack[0].id);
      if !ok && i < |s.calls| then Take(Pop(s), i, Withdrawn(s.stack[0].id)) else Pop(s)
    case Complete(id, data) => Finish(s, id, data)
    case Release =>
      (match s.stack[0].result
       case None => Pop(s)
       case Some(r) => Return(Pop(s), r))
    case Register(mod) =>
      if s.driver.None? then s.(driver := Some(Driver(mod, s.drivers)), drivers := s.drivers + 1) else s
    case Unregister(mod) => Withdraw(s, mod)
    case FailNext =>
      if s.calls == [] then Pop(s) else Take(s, 0, Failed(s.calls[0].id, s.calls[0].wants))
    case DropModule(mod) => Withdraw(Drops(s, 0, mod), Some(mod))
    case Configure(on) => s.(configured := on)
  }

  const Start := State([], None, 0, false, 1, 0, 0, [], [])

  ghost predicate Run(s: State, acts: seq<Action>, t: State)
    decreases |acts|
  {
    if acts == [] then t == s else Enabled(s, acts[0]) && Run(Do(s, acts[0]), acts[1..], t)
  }

  // ----- The life of a call, and of a result --------------------------------

  datatype Phase = Unborn | Listed(call: Call) | Gone(called: bool) | Wrong

  function Lives(p: Phase, id: nat, n: Note): Phase {
    match n
    case Placed(i, c) => if i != id then p else if p == Unborn && c.id == id then Listed(c) else Wrong
    case Withdrawn(i) => if i != id then p else if p.Listed? then Gone(false) else Wrong
    case Completed(i, called) =>
      if i != id then p else if p.Listed? && called == p.call.wants then Gone(called) else Wrong
    case Failed(i, called) => if i != id then p else if p.Listed? && called == p.call.wants then Gone(called) else Wrong
    case Dropped(i, mod) => if i != id then p else if p.Listed? && p.call.owner == Some(mod) then Gone(false) else Wrong
    case _ => p
  }

  function Life(hist: seq<Note>, id: nat): Phase {
    if hist == [] then Unborn else Lives(Life(hist[..|hist| - 1], id), id, hist[|hist| - 1])
  }

  lemma LifeNext(hist: seq<Note>, n: Note, id: nat)
    ensures Life(hist + [n], id) == Lives(Life(hist, id), id, n)
  {
    assert (hist + [n])[..|hist|] == hist;
  }

  ghost predicate Tracks(s: State, id: nat) {
    match Life(s.hist, id)
    case Unborn => id >= s.next || id == 0
    case Listed(c) => id < s.next && c.id == id && c in s.calls
    case Gone(_) => id < s.next && forall c :: c in s.calls ==> c.id != id
    case Wrong => false
  }

  ghost predicate Inv(s: State) {
    && (forall i, j :: 0 <= i < j < |s.calls| ==> s.calls[i].id != s.calls[j].id)
    && (forall c :: c in s.calls ==> 0 < c.id < s.next)
    && s.next > 0
    && s.pending == |s.calls|
    && forall id :: Tracks(s, id)
  }

  lemma WithoutIs(calls: seq<Call>, i: nat)
    requires i < |calls| && forall j, k :: 0 <= j < k < |calls| ==> calls[j].id != calls[k].id
    ensures var w := calls[..i] + calls[i + 1..];
            && (forall c :: c in w <==> c in calls && c != calls[i])
            && (forall c :: c in w ==> c.id != calls[i].id)
            && forall j, k :: 0 <= j < k < |w| ==> w[j].id != w[k].id
  {
    TakenOut(calls, i);
  }

  // One call leaves the table, and no other notices.
  lemma TakeKeeps(s: State, i: nat, n: Note)
    requires Inv(s) && i < |s.calls|
    requires Lives(Listed(s.calls[i]), s.calls[i].id, n).Gone?
    requires forall id :: id != s.calls[i].id ==> Lives(Life(s.hist, id), id, n) == Life(s.hist, id)
    ensures Inv(Take(s, i, n))
  {
    var t, c := Take(s, i, n), s.calls[i];
    WithoutIs(s.calls, i);
    assert c in s.calls;
    forall id ensures Tracks(t, id) {
      assert Tracks(s, id);
      LifeNext(s.hist, n, id);
    }
  }

  // Nothing about calls changes.
  lemma Aside(s: State, t: State)
    requires Inv(s) && t.calls == s.calls && t.next == s.next && t.pending == s.pending && t.hist == s.hist
    ensures Inv(t)
  {
    forall id ensures Tracks(t, id) {
      assert Tracks(s, id);
    }
  }

  lemma Remark(s: State, n: Note)
    requires Inv(s) && (n.Delivered? || n.Released? || n.Leaked?)
    ensures Inv(s.(hist := s.hist + [n]))
  {
    forall id ensures Tracks(s.(hist := s.hist + [n]), id) {
      assert Tracks(s, id);
      LifeNext(s.hist, n, id);
    }
  }

  lemma SubmitKeeps(s: State, c: Call)
    requires Inv(s) && c.id == s.next
    ensures Inv(s.(calls := [c] + s.calls, next := s.next + 1, pending := s.pending + 1,
        hist := s.hist + [Placed(c.id, c)]))
  {
    var t := s.(calls := [c] + s.calls, next := s.next + 1, pending := s.pending + 1,
        hist := s.hist + [Placed(c.id, c)]);
    assert forall i :: 0 < i < |t.calls| ==> t.calls[i] == s.calls[i - 1] && s.calls[i - 1] in s.calls;
    assert t.calls[0] == c;
    forall id ensures Tracks(t, id) {
      assert Tracks(s, id);
      LifeNext(s.hist, Placed(c.id, c), id);
    }
  }

  lemma FinishKeeps(s: State, id: nat, data: Option<nat>)
    requires Inv(s)
    ensures Inv(Finish(s, id, data))
  {
    var i := Find(s.calls, id);
    var s1 := s;
    if i < |s.calls| {
      TakeKeeps(s, i, Completed(id, s.calls[i].wants));
      s1 := Take(s, i, Completed(id, s.calls[i].wants));
    }
    var s2 := Deliver(s1, data);
    if data.Some? {
      Remark(s1, Delivered(s.results, data.value));
      Aside(s1.(hist := s1.hist + [Delivered(s.results, data.value)]), s2);
      Remark(s2, if s2.driver.Some? then Released(s.results, s2.driver.value.nth) else Leaked(s.results));
    }
    if i < |s.calls| && s.calls[i].wants {
      Aside(s2, Finish(s, id, data));
    }
  }

  lemma {:induction false} DropsKeeps(s: State, k: nat, mod: nat)
    requires Inv(s) && k <= |s.calls|
    ensures Inv(Drops(s, k, mod))
    decreases |s.calls| - k
  {
    if k < |s.calls| {
      if s.calls[k].owner == Some(mod) {
        TakeKeeps(s, k, Dropped(s.calls[k].id, mod));
        DropsKeeps(Take(s, k, Dropped(s.calls[k].id, mod)), k, mod);
      } else {
        DropsKeeps(s, k + 1, mod);
      }
    }
  }

  lemma AnswerKeeps(s: State, ok: bool)
    requires Inv(s) && Enabled(s, Answer(ok))
    ensures Inv(Do(s, Answer(ok)))
  {
    Aside(s, Pop(s));
    var i := Find(s.calls, s.stack[0].id);
    if !ok && i < |s.calls| {
      TakeKeeps(Pop(s), i, Withdrawn(s.stack[0].id));
    }
  }

  lemma ReleaseKeeps(s: State)
    requires Inv(s) && Enabled(s, Release)
    ensures Inv(Do(s, Release))
  {
    Aside(s, Pop(s));
    if s.stack[0].result.Some? {
      var r := s.stack[0].result.value;
      Remark(Pop(s), if s.driver.Some? then Released(r, s.driver.value.nth) else Leaked(r));
    }
  }

  lemma StepKeeps(s: State, a: Action)
    requires Inv(s) && Enabled(s, a)
    ensures Inv(Do(s, a))
  {
    match a
    case Submit(owner, wants) =>
      if s.driver.Some? && s.configured {
        var c := Call(s.next, wants, owner);
        SubmitKeeps(s, c);
        Aside(s.(calls := [c] + s.calls, next := s.next + 1, pending := s.pending + 1,
          hist := s.hist + [Placed(c.id, c)]), Do(s, a));
      }
    case Answer(ok) => AnswerKeeps(s, ok);
    case Complete(id, data) => FinishKeeps(s, id, data);
    case Release => ReleaseKeeps(s);
    case FailNext =>
      if s.calls == [] {
        Aside(s, Pop(s));
      } else {
        TakeKeeps(s, 0, Failed(s.calls[0].id, s.calls[0].wants));
      }
    case DropModule(mod) =>
      DropsKeeps(s, 0, mod);
      Aside(Drops(s, 0, mod), Do(s, a));
    case Register(_) => Aside(s, Do(s, a));
    case Unregister(_) => Aside(s, Do(s, a));
    case Configure(_) => Aside(s, Do(s, a));
  }

  lemma {:induction false} RunKeeps(s: State, acts: seq<Action>, t: State)
    requires Inv(s) && Run(s, acts, t)
    ensures Inv(t)
    decreases |acts|
  {
    if acts != [] {
      StepKeeps(s, acts[0]);
      RunKeeps(Do(s, acts[0]), acts[1..], t);
    }
  }

  lemma StartInv()
    ensures Inv(Start)
  {
  }
}
