/**
 * Suspended hooks: operations a module asked to answer later, and every way
 * such a hold can end. Callbacks run on the same thread and may come back in
 * at any point, so a call in progress is a frame on a stack and everything
 * else may happen above it.
 */
module Hooks {
  import opened Options

  const PENDING_MAX := 16384
  // Tokens are an unsigned long; this is the narrowest it can be.
  const TOKENS := 0x1_0000_0000

  datatype Result = Continue | Allow | Deny | Pending

  // One operation waiting for an answer. `op` is the operation itself: what
  // the caller handed over to be called back with.
  datatype Hold = Hold(op: nat, token: nat, mod: nat, client: Option<nat>, deadline: nat)

  // A call in progress: a hook chain being run for an operation, a pass over
  // the holds that are late, or one over those a module leaves behind.
  datatype Frame =
    | Running(op: nat, token: nat, client: Option<nat>, deadline: nat)
    | Expiring(now: nat, timer: bool)
    | Dropping(mod: nat)

  datatype Why = Answered(token: nat) | Late(now: nat) | Unloaded(mod: nat)

  datatype Note =
    | Opened(op: nat, token: nat)                  // the chain starts
    | Returned(op: nat, result: Result)            // decided on the spot
    | Held(op: nat, hold: Hold)                    // suspended
    | Called(op: nat, result: Result, why: Why)    // the callback runs
    | Dropped(op: nat, client: nat)                // forgotten, no callback

  datatype State = State(
    holds: seq<Hold>,
    last: nat,               // how often the token counter has been advanced
    armed: Option<nat>,
    stack: seq<Frame>,
    ops: nat,
    hist: seq<Note>)

  datatype Action =
    | Suspend(client: Option<nat>, deadline: nat, count: nat)
    | Return(result: Result, mod: nat)
    | Resume(token: nat, result: Result)
    | Cancel(who: nat)
    | Expire(now: nat)
    | Timer(now: nat)
    | Unload(mod: nat)
    | Go

  // ----- The table of holds -------------------------------------------------

  datatype Test = HasToken(token: nat) | Due(now: nat) | OwedBy(mod: nat)

  predicate Passes(h: Hold, t: Test) {
    match t
    case HasToken(token) => h.token == token
    case Due(now) => h.deadline <= now
    case OwedBy(mod) => h.mod == mod
  }

  // The first hold that passes, or the end of the list.
  function First(holds: seq<Hold>, t: Test): (i: nat)
    ensures i <= |holds|
    ensures forall j :: 0 <= j < i ==> !Passes(holds[j], t)
    ensures i < |holds| ==> Passes(holds[i], t)
  {
    if holds == [] || Passes(holds[0], t) then 0 else 1 + First(holds[1..], t)
  }

  function Without(holds: seq<Hold>, i: nat): seq<Hold>
    requires i < |holds|
  {
    holds[..i] + holds[i + 1..]
  }

  function Earliest(holds: seq<Hold>): nat {
    if holds == [] then 0
    else
      var rest := Earliest(holds[1..]);
      if rest == 0 || holds[0].deadline < rest then holds[0].deadline else rest
  }

  function Arm(s: State): State {
    if s.armed.Some? || Earliest(s.holds) == 0 then s else s.(armed := Some(Earliest(s.holds)))
  }

  predicate Usable(holds: seq<Hold>, count: nat) {
    count % TOKENS != 0 && forall i :: 0 <= i < |holds| ==> holds[i].token != count % TOKENS
  }

  // `count` is where the counter stops when it is advanced past zero and past
  // every token still outstanding.
  ghost predicate NextCount(holds: seq<Hold>, last: nat, count: nat) {
    last < count && Usable(holds, count) && forall c :: last < c < count ==> !Usable(holds, c)
  }

  // ----- Steps --------------------------------------------------------------

  function Push(s: State, f: Frame): State {
    s.(stack := [f] + s.stack)
  }

  function Pop(s: State): State
    requires s.stack != []
  {
    s.(stack := s.stack[1..])
  }

  function Log(s: State, ns: seq<Note>): State {
    s.(hist := s.hist + ns)
  }

  // Off the list, then the callback.
  function Settle(s: State, i: nat, result: Result, why: Why): State
    requires i < |s.holds|
  {
    Log(s.(holds := Without(s.holds, i)), [Called(s.holds[i].op, result, why)])
  }

  // Off the list, and nobody is called.
  function Forget(s: State, i: nat, who: nat): State
    requires i < |s.holds|
  {
    Log(s.(holds := Without(s.holds, i)), [Dropped(s.holds[i].op, who)])
  }

  // Every hold on a client from k on, dropped.
  function Cancelled(s: State, k: nat, who: nat): State
    requires k <= |s.holds|
    decreases |s.holds| - k
  {
    if k == |s.holds| then s
    else if s.holds[k].client == Some(who) then Cancelled(Forget(s, k, who), k, who)
    else Cancelled(s, k + 1, who)
  }

  function HoldOf(f: Frame, mod: nat): Hold
    requires f.Running?
  {
    Hold(f.op, f.token, mod, f.client, f.deadline)
  }

  // The chain is done: decided, or suspended by `mod`, which is refused when
  // too many are.
  function Finish(s: State, f: Frame, result: Result, mod: nat): State
    requires f.Running?
  {
    if result != Pending then
      Log(s, [Returned(f.op, result)])
    else if |s.holds| >= PENDING_MAX then
      Log(s, [Returned(f.op, Deny)])
    else
      var h := HoldOf(f, mod);
      Arm(Log(s.(holds := [h] + s.holds), [Held(f.op, h)]))
  }

  // One turn of a pass over the holds: refuse the next one, or be done.
  function Turn(s: State, t: Test, why: Why): Option<State> {
    var i := First(s.holds, t);
    if i < |s.holds| then Some(Settle(s, i, Deny, why)) else None
  }

  ghost predicate Enabled(s: State, a: Action) {
    match a
    case Suspend(client, deadline, count) => deadline > 0 && NextCount(s.holds, s.last, count)
    case Return(result, mod) => s.stack != [] && s.stack[0].Running?
    case Timer(now) => s.armed.Some? && s.armed.value <= now
    case Go => s.stack != [] && !s.stack[0].Running?
    case _ => true
  }

  function Do(s: State, a: Action): State
    requires Enabled(s, a)
  {
    match a
    case Suspend(client, deadline, count) =>
      var s1 := Push(s, Running(s.ops, count % TOKENS, client, deadline));
      Log(s1.(last := count, ops := s.ops + 1), [Opened(s.ops, count % TOKENS)])
    case Return(result, mod) =>
      Finish(Pop(s), s.stack[0], result, mod)
    case Resume(token, result) =>
      var i := First(s.holds, HasToken(token));
      if i < |s.holds| then Settle(s, i, result, Answered(token)) else s
    case Cancel(who) =>
      Cancelled(s, 0, who)
    case Expire(now) =>
      Push(s, Expiring(now, false))
    case Timer(now) =>
      Push(s.(armed := None), Expiring(now, true))
    case Unload(mod) =>
      Push(s, Dropping(mod))
    case Go =>
      match s.stack[0]
      case Expiring(now, timer) =>
        (match Turn(s, Due(now), Late(now))
         case Some(next) => next
         case None => if timer then Arm(Pop(s)) else Pop(s))
      case Dropping(mod) =>
        match Turn(s, OwedBy(mod), Unloaded(mod))
        case Some(next) => next
        case None => Pop(s)
  }

  const Start := State([], 0, None, [], 0, [])

  ghost predicate Run(s: State, acts: seq<Action>, t: State)
    decreases |acts|
  {
    if acts == [] then
      t == s
    else
      Enabled(s, acts[0]) && Run(Do(s, acts[0]), acts[1..], t)
  }

  // ----- The life of one operation ------------------------------------------

  datatype Phase =
    | Unborn
    | Asked
    | Decided(result: Result)
    | Waiting(hold: Hold)
    | Settled(answer: Option<Result>)
    | Wrong

  // Why a hold may end as it does.
  predicate Just(h: Hold, result: Result, why: Why) {
    match why
    case Answered(token) => h.token == token
    case Late(now) => h.deadline <= now && result == Deny
    case Unloaded(mod) => h.mod == mod && result == Deny
  }

  // The only life an operation may lead: asked once; decided at once or held
  // once, never anything before that; and if held, called back once for a
  // good reason or dropped once with its own client.
  function Lives(p: Phase, op: nat, n: Note): Phase {
    if n.op != op then
      p
    else
      match n
      case Opened(_, _) => if p == Unborn then Asked else Wrong
      case Returned(_, result) => if p == Asked && result != Pending then Decided(result) else Wrong
      case Held(_, hold) => if p == Asked && hold.op == op then Waiting(hold) else Wrong
      case Called(_, result, why) => if p.Waiting? && Just(p.hold, result, why) then Settled(Some(result)) else Wrong
      case Dropped(_, client) => if p.Waiting? && p.hold.client == Some(client) then Settled(None) else Wrong
  }

  function Life(hist: seq<Note>, op: nat): Phase {
    if hist == [] then Unborn else Lives(Life(hist[..|hist| - 1], op), op, hist[|hist| - 1])
  }

  lemma LifeNext(hist: seq<Note>, n: Note, op: nat)
    ensures Life(hist + [n], op) == Lives(Life(hist, op), op, n)
  {
    assert (hist + [n])[..|hist|] == hist;
  }

  // ----- What every run keeps -----------------------------------------------

  ghost predicate Distinct(s: State) {
    && (forall i, j :: 0 <= i < j < |s.holds| ==> s.holds[i].op != s.holds[j].op)
    && (forall i, j ::
            0 <= i < j < |s.stack| && s.stack[i].Running? && s.stack[j].Running? ==> s.stack[i].op != s.stack[j].op)
  }

  ghost predicate Asking(s: State, op: nat) {
    exists i :: 0 <= i < |s.stack| && s.stack[i].Running? && s.stack[i].op == op
  }

  ghost predicate Tracks(s: State, op: nat) {
    match Life(s.hist, op)
    case Unborn => op >= s.ops && !Asking(s, op) && (forall h :: h in s.holds ==> h.op != op)
    case Asked => op < s.ops && Asking(s, op) && (forall h :: h in s.holds ==> h.op != op)
    case Waiting(h) => op < s.ops && h in s.holds && h.op == op && !Asking(s, op)
    case Decided(_) => op < s.ops && !Asking(s, op) && (forall h :: h in s.holds ==> h.op != op)
    case Settled(_) => op < s.ops && !Asking(s, op) && (forall h :: h in s.holds ==> h.op != op)
    case Wrong => false
  }

  ghost predicate Inv(s: State) {
    && Distinct(s)
    && |s.holds| <= PENDING_MAX
    && (forall h :: h in s.holds ==> h.deadline > 0)
    && (forall i :: 0 <= i < |s.stack| && s.stack[i].Running? ==> s.stack[i].deadline > 0)
    && forall op :: Tracks(s, op)
  }
}
