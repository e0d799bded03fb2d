/**
 * Requests told from what happened: for the request that one dispatch opened,
 * whom its end goes to, when it may end and what must end it, in terms of that
 * event and no other.
 */
module HttpEvents {
  import opened HttpCalls
  import opened HttpPasses

  // ----- One step -----------------------------------------------------------

  ghost predicate Steps(s: State, a: Action, t: State) { Enabled(s, a) && t == Do(s, a) }

  // What a step says.
  ghost function New(s: State, t: State): seq<Note> {
    if |s.hist| <= |t.hist| then t.hist[|s.hist|..] else []
  }

  // The handler about to return is the request's own.
  ghost predicate IsDone(s: State, id: nat) { s.stack != [] && s.stack[0] == Handling(id) }

  // Which event says what.
  ghost predicate Fits(s: State, a: Action, n: Note) {
    match n
    case Began(id, _) => a.Dispatch? && s.listening && id == s.last + 1
    case Answered(id, _) => a == Respond(id) || (a == Return(true) && IsDone(s, id))
    case TimedOut(_, _, now) => a == ExpireNext && s.stack != [] && s.stack[0].Expiring? && s.stack[0].now == now
    case Cancelled(_, _, mod) => a == DropModule(mod)
    case Silenced(_) => a == StopListening
  }

  lemma {:induction false} DropsFit(s: State, k: nat, mod: nat)
    requires k <= |s.calls|
    ensures var t := Drops(s, k, mod);
            && s.hist <= t.hist
            && forall p :: |s.hist| <= p < |t.hist| ==> t.hist[p].Cancelled? && t.hist[p].mod == mod
    decreases |s.calls| - k
  {
    if k < |s.calls| {
      if s.calls[k].mod == mod {
        DropsFit(Take(s, k, Cancelled(s.calls[k].id, s.calls[k].pid, mod)), k, mod);
      } else {
        DropsFit(s, k + 1, mod);
      }
    }
  }

  lemma {:induction false} SilencesFit(s: State)
    ensures var t := Silences(s);
            s.hist <= t.hist && t.last == s.last && forall p :: |s.hist| <= p < |t.hist| ==> t.hist[p].Silenced?
    decreases |s.calls|
  {
    if s.calls != [] {
      SilencesFit(Take(s, 0, Silenced(s.calls[0].id)));
    }
  }

  ghost predicate AllFit(s: State, a: Action, hist: seq<Note>) {
    s.hist <= hist && forall p :: |s.hist| <= p < |hist| ==> Fits(s, a, hist[p])
  }

  lemma OneFits(s: State, a: Action, hist: seq<Note>, n: Note)
    requires hist == s.hist + [n] && Fits(s, a, n)
    ensures AllFit(s, a, hist)
  {
  }

  lemma ExpireFits(s: State, t: State)
    requires Steps(s, ExpireNext, t)
    ensures AllFit(s, ExpireNext, t.hist) && s.last <= t.last
  {
    if t.hist != s.hist { OneFits(s, ExpireNext, t.hist, t.hist[|s.hist|]); }
  }

  lemma AnswerFits(s: State, a: Action, t: State)
    requires Steps(s, a, t) && (a.Return? || a.Respond?)
    ensures AllFit(s, a, t.hist) && s.last <= t.last
  {
    if t.hist != s.hist { OneFits(s, a, t.hist, t.hist[|s.hist|]); }
  }

  lemma StepFits(s: State, a: Action, t: State)
    requires Steps(s, a, t)
    ensures AllFit(s, a, t.hist) && s.last <= t.last
  {
    match a
    case DropModule(mod) =>
      DropsFit(s, 0, mod);
      DropsAside(s, 0, mod);
    case StopListening => SilencesFit(s.(listening := false));
    case ExpireNext => ExpireFits(s, t);
    case Return(_) => AnswerFits(s, a, t);
    case Respond(_) => AnswerFits(s, a, t);
    case Dispatch(_, _, _) => if s.listening { OneFits(s, a, t.hist, t.hist[|s.hist|]); }
    case _ =>
  }

  lemma NotesFit(s: State, a: Action, t: State)
    requires Steps(s, a, t)
    ensures t.hist == s.hist + New(s, t) && s.last <= t.last
    ensures forall p :: 0 <= p < |New(s, t)| ==> Fits(s, a, New(s, t)[p])
  {
    StepFits(s, a, t);
    AllNew(s, a, t);
  }

  lemma AllNew(s: State, a: Action, t: State)
    requires AllFit(s, a, t.hist)
    ensures t.hist == s.hist + New(s, t)
    ensures forall p :: 0 <= p < |New(s, t)| ==> Fits(s, a, New(s, t)[p])
  {
  }

  // A request is open as c has it, or has ended.
  ghost predicate Bound(hist: seq<Note>, c: Call) {
    Life(hist, c.id) == Open(c) || Life(hist, c.id) == Ended
  }

  lemma BoundOn(hist: seq<Note>, more: seq<Note>, c: Call)
    requires Bound(hist, c) && Life(hist + more, c.id) != Wrong
    ensures Bound(hist + more, c) && (Life(hist, c.id) == Ended ==> Life(hist + more, c.id) == Ended)
  {
    if Life(hist, c.id) == Ended { EndedForGood(hist, more, c.id); } else { OpenOrEnded(hist, more, c.id); }
  }

  lemma NeverWrong(s: State, id: nat)
    requires Inv(s)
    ensures Life(s.hist, id) != Wrong
  {
    assert Tracks(s, id);
  }

  lemma StepBound(s: State, a: Action, t: State, c: Call)
    requires Inv(s) && Steps(s, a, t) && Bound(s.hist, c)
    ensures Bound(t.hist, c) && (Life(s.hist, c.id) == Ended ==> Life(t.hist, c.id) == Ended)
  {
    StepKeeps(s, a);
    NeverWrong(t, c.id);
    NotesFit(s, a, t);
    BoundOn(s.hist, New(s, t), c);
  }

  // A dispatch that finds a listener opens the next request.
  ghost predicate Opens(s: State, a: Action, id: nat) { s.listening && a.Dispatch? && id == s.last + 1 }

  ghost function Asked(a: Action, id: nat): Call
    requires a.Dispatch?
  {
    Call(id, a.pid, a.mod, a.deadline)
  }

  lemma StepOpens(s: State, a: Action, t: State, id: nat)
    requires Inv(s) && Steps(s, a, t) && Opens(s, a, id)
    ensures Life(t.hist, id) == Open(Asked(a, id)) && t.last == id && t.stack == [Handling(id)] + s.stack
  {
    assert Tracks(s, id);
    LifeNext(s.hist, Began(id, Asked(a, id)), id);
  }

  // What is said of a request in one step.
  lemma SaidOf(s: State, t: State, c: Call, q: nat)
    requires Inv(t) && t.hist == s.hist + New(s, t) && Bound(s.hist, c)
    requires q < |New(s, t)| && New(s, t)[q].id == c.id
    ensures Life(s.hist, c.id) == Open(c) && Just(c, New(s, t)[q])
  {
    var p, new_ := |s.hist| + q, New(s, t);
    NeverWrong(t, c.id);
    NeverWrongBefore(t.hist, p, c.id);
    NeverWrongBefore(t.hist, p + 1, c.id);
    assert t.hist[..p] == s.hist + new_[..q] && t.hist[..p + 1] == t.hist[..p] + [new_[q]];
    BoundOn(s.hist, new_[..q], c);
    LifeNext(t.hist[..p], new_[q], c.id);
  }

  lemma OpenIsThere(s: State, c: Call)
    requires Inv(s) && Bound(s.hist, c)
    ensures c in s.calls <==> Life(s.hist, c.id) == Open(c)
    ensures forall d :: d in s.calls && d.id == c.id ==> d == c
  {
    assert Tracks(s, c.id);
    forall d | d in s.calls && d.id == c.id ensures d == c && c in s.calls {
      var i :| 0 <= i < |s.calls| && s.calls[i] == d;
      var j :| 0 <= j < |s.calls| && s.calls[j] == c;
    }
  }

  // ----- Runs ---------------------------------------------------------------

  // A run: what happened, and the states between.
  ghost predicate Trace(acts: seq<Action>, ss: seq<State>) {
    && |ss| == |acts| + 1 && ss[0] == Start
    && forall k :: 0 <= k < |acts| ==> Steps(ss[k], acts[k], ss[k + 1])
  }

  // Every run is one of these, and these are runs.
  lemma {:induction false} TraceOf(s: State, acts: seq<Action>, t: State) returns (ss: seq<State>)
    requires Run(s, acts, t)
    ensures |ss| == |acts| + 1 && ss[0] == s && ss[|acts|] == t
    ensures forall k :: 0 <= k < |acts| ==> Steps(ss[k], acts[k], ss[k + 1])
    decreases |acts|
  {
    if acts == [] {
      ss := [s];
    } else {
      var rest := TraceOf(Do(s, acts[0]), acts[1..], t);
      ss := [s] + rest;
      forall k | 0 <= k < |acts| ensures Steps(ss[k], acts[k], ss[k + 1]) {
        assert k > 0 ==> Steps(rest[k - 1], acts[1..][k - 1], rest[k]);
      }
    }
  }

  lemma {:induction false} RunOf(acts: seq<Action>, ss: seq<State>, k: nat, more: seq<Action>)
    requires Trace(acts, ss) && k <= |acts| && more == acts[k..]
    ensures Run(ss[k], more, ss[|acts|])
    decreases |acts| - k
  {
    if k < |acts| {
      assert Steps(ss[k], acts[k], ss[k + 1]);
      assert more[0] == acts[k] && more[1..] == acts[k + 1..];
      RunOf(acts, ss, k + 1, more[1..]);
    }
  }

  lemma {:induction false} AlwaysInv(acts: seq<Action>, ss: seq<State>, k: nat)
    requires Trace(acts, ss) && k <= |acts|
    ensures Inv(ss[k])
  {
    if k > 0 {
      AlwaysInv(acts, ss, k - 1);
      assert Steps(ss[k - 1], acts[k - 1], ss[k]);
      StepKeeps(ss[k - 1], acts[k - 1]);
    }
  }

  lemma {:induction false} StaysBound(acts: seq<Action>, ss: seq<State>, i: nat, id: nat, k: nat)
    requires Trace(acts, ss) && i < k <= |acts| && Opens(ss[i], acts[i], id)
    ensures Bound(ss[k].hist, Asked(acts[i], id))
  {
    AlwaysInv(acts, ss, k - 1);
    assert Steps(ss[k - 1], acts[k - 1], ss[k]);
    if k == i + 1 {
      StepOpens(ss[i], acts[i], ss[k], id);
    } else {
      StaysBound(acts, ss, i, id, k - 1);
      StepBound(ss[k - 1], acts[k - 1], ss[k], Asked(acts[i], id));
    }
  }

  lemma NewPass(s: State, a: Action, t: State, f: Frame)
    requires Steps(s, a, t) && f in t.stack && f !in s.stack && f.Expiring?
    ensures a == Expire(f.now) || a == Timer(f.now)
  {
    StepAside(s, a);
  }

  lemma {:induction false} PassBegan(acts: seq<Action>, ss: seq<State>, k: nat, f: Frame) returns (j: nat)
    requires Trace(acts, ss) && k <= |acts| && f in ss[k].stack && f.Expiring?
    ensures j < k && (acts[j] == Expire(f.now) || acts[j] == Timer(f.now))
  {
    assert k > 0 ==> Steps(ss[k - 1], acts[k - 1], ss[k]);
    if f in ss[k - 1].stack {
      j := PassBegan(acts, ss, k - 1, f);
    } else {
      NewPass(ss[k - 1], acts[k - 1], ss[k], f);
      j := k - 1;
    }
  }

  // ----- Whom it goes to, and why -------------------------------------------

  // Whatever is said of the request that dispatch i opened goes to the
  // connection that dispatch named. It is an answer given by its number or
  // because its own handler is done; or a timeout, in a pass begun at a time
  // not before the deadline the dispatch gave; or a cancel, while the module
  // of its route is unloaded; or the listener stops.
  lemma EndsAsAsked(acts: seq<Action>, ss: seq<State>, i: nat, id: nat, k: nat, n: Note) returns (j: nat)
    requires Trace(acts, ss) && i < k < |acts| && Opens(ss[i], acts[i], id)
    requires n in New(ss[k], ss[k + 1]) && n.id == id
    ensures !n.Began? && (!n.Silenced? ==> n.pid == acts[i].pid)
    ensures n.Answered? && acts[k] != Respond(id) ==> acts[k] == Return(true) && IsDone(ss[k], id)
    ensures n.TimedOut? ==> acts[i].deadline <= n.now && j < k && (acts[j] == Expire(n.now) || acts[j] == Timer(n.now))
    ensures n.Cancelled? ==> acts[k] == DropModule(acts[i].mod)
    ensures n.Silenced? ==> acts[k] == StopListening
  {
    assert Steps(ss[k], acts[k], ss[k + 1]);
    AlwaysInv(acts, ss, k + 1);
    StaysBound(acts, ss, i, id, k);
    SaidFits(ss[k], acts[k], ss[k + 1], Asked(acts[i], id), n);
    j := 0;
    if n.TimedOut? {
      j := PassBegan(acts, ss, k, ss[k].stack[0]);
    }
  }

  lemma SaidFits(s: State, a: Action, t: State, c: Call, n: Note)
    requires Inv(t) && Steps(s, a, t) && Bound(s.hist, c) && n in New(s, t) && n.id == c.id
    ensures Just(c, n) && Fits(s, a, n)
  {
    NotesFit(s, a, t);
    var q :| 0 <= q < |New(s, t)| && New(s, t)[q] == n;
    SaidOf(s, t, c, q);
  }

  // Once it is over nothing more is said of it.
  lemma OverForGood(acts: seq<Action>, ss: seq<State>, i: nat, id: nat, e: nat, k: nat, n: Note)
    requires Trace(acts, ss) && i < e <= k < |acts| && Opens(ss[i], acts[i], id) && Life(ss[e].hist, id) == Ended
    requires n in New(ss[k], ss[k + 1])
    ensures n.id != id
  {
    assert Steps(ss[k], acts[k], ss[k + 1]);
    AlwaysInv(acts, ss, k + 1);
    StaysOver(acts, ss, i, id, e, k);
    StaysBound(acts, ss, i, id, k);
    NotesFit(ss[k], acts[k], ss[k + 1]);
    var q :| 0 <= q < |New(ss[k], ss[k + 1])| && New(ss[k], ss[k + 1])[q] == n;
    if n.id == id {
      SaidOf(ss[k], ss[k + 1], Asked(acts[i], id), q);
    }
  }

  lemma {:induction false} StaysOver(acts: seq<Action>, ss: seq<State>, i: nat, id: nat, e: nat, k: nat)
    requires Trace(acts, ss) && i < e <= k <= |acts| && Opens(ss[i], acts[i], id) && Life(ss[e].hist, id) == Ended
    ensures Life(ss[k].hist, id) == Ended
    decreases k
  {
    if e < k {
      StaysOver(acts, ss, i, id, e, k - 1);
      AlwaysInv(acts, ss, k - 1);
      assert Steps(ss[k - 1], acts[k - 1], ss[k]);
      StepBound(ss[k - 1], acts[k - 1], ss[k], Asked(acts[i], id));
    }
  }

  // ----- What must end it ---------------------------------------------------

  lemma AnswerOne(s: State, a: Action, t: State, c: Call)
    requires Inv(s) && Inv(t) && Steps(s, a, t) && Bound(s.hist, c)
    requires a == Respond(c.id) || (a == Return(true) && IsDone(s, c.id))
    ensures New(s, t) == if Life(s.hist, c.id) == Ended then [] else [Answered(c.id, c.pid)]
    ensures Life(t.hist, c.id) == Ended
  {
    OpenIsThere(s, c);
    var p := Find(s.calls, c.id);
    assert Tracks(s, c.id);
    if p < |s.calls| {
      assert s.calls[p] in s.calls;
      LifeNext(s.hist, Answered(c.id, c.pid), c.id);
    } else {
      assert forall j :: 0 <= j < |s.calls| ==> s.calls[j] != c;
    }
  }

  // An answer by its number, and its own handler's return with one, is sent at
  // once if the request is still open, to that connection, and ends it.
  lemma AnswerIsSent(acts: seq<Action>, ss: seq<State>, i: nat, id: nat, k: nat)
    requires Trace(acts, ss) && i < k < |acts| && Opens(ss[i], acts[i], id)
    requires acts[k] == Respond(id) || (acts[k] == Return(true) && IsDone(ss[k], id))
    ensures New(ss[k], ss[k + 1]) == if Life(ss[k].hist, id) == Ended then [] else [Answered(id, acts[i].pid)]
    ensures Life(ss[k + 1].hist, id) == Ended
  {
    assert Steps(ss[k], acts[k], ss[k + 1]);
    AlwaysInv(acts, ss, k);
    AlwaysInv(acts, ss, k + 1);
    StaysBound(acts, ss, i, id, k);
    AnswerOne(ss[k], acts[k], ss[k + 1], Asked(acts[i], id));
  }

  // Unloading the module of its route ends it, and unloading another does not.
  lemma UnloadEndsIff(acts: seq<Action>, ss: seq<State>, i: nat, id: nat, k: nat)
    requires Trace(acts, ss) && i < k < |acts| && Opens(ss[i], acts[i], id)
    requires acts[k].DropModule? && Life(ss[k].hist, id) != Ended
    ensures Life(ss[k + 1].hist, id) == Ended <==> acts[k].mod == acts[i].mod
  {
    assert Steps(ss[k], acts[k], ss[k + 1]);
    AlwaysInv(acts, ss, k);
    AlwaysInv(acts, ss, k + 1);
    StaysBound(acts, ss, i, id, k);
    StaysBound(acts, ss, i, id, k + 1);
    OpenIsThere(ss[k], Asked(acts[i], id));
    OpenIsThere(ss[k + 1], Asked(acts[i], id));
    DropsClear(ss[k], 0, acts[k].mod);
  }

  // So does the listener that stops.
  lemma StopEnds(acts: seq<Action>, ss: seq<State>, i: nat, id: nat, k: nat)
    requires Trace(acts, ss) && i < k < |acts| && Opens(ss[i], acts[i], id) && acts[k] == StopListening
    ensures Life(ss[k + 1].hist, id) == Ended
  {
    assert Steps(ss[k], acts[k], ss[k + 1]);
    AlwaysInv(acts, ss, k);
    AlwaysInv(acts, ss, k + 1);
    StaysBound(acts, ss, i, id, k + 1);
    OpenIsThere(ss[k + 1], Asked(acts[i], id));
    StopClears(ss[k], ss[k + 1]);
  }

  lemma StopClears(s: State, t: State)
    requires Inv(s) && Steps(s, StopListening, t)
    ensures t.calls == []
  {
    if s.listening {
      Aside(s, s.(listening := false));
      SilencesKeeps(s.(listening := false));
    }
  }

  // And a pass begun at its deadline or later, once that is over.
  lemma PassEnds(acts: seq<Action>, ss: seq<State>, i: nat, id: nat, k: nat, more: seq<Action>, t: State)
    requires Trace(acts, ss) && i < k < |acts| && Opens(ss[i], acts[i], id)
    requires (acts[k].Expire? || acts[k].Timer?) && acts[i].deadline <= acts[k].now
    requires Within(ss[k + 1], more, t, |ss[k].stack| + 1)
    ensures Life(t.hist, id) == Ended
  {
    var s := ss[k + 1];
    assert Steps(ss[k], acts[k], s);
    AlwaysInv(acts, ss, k + 1);
    StaysBound(acts, ss, i, id, k + 1);
    OpenIsThere(s, Asked(acts[i], id));
    WithinRuns(s, more, t, |s.stack|);
    if Life(s.hist, id) == Ended {
      RunOver(s, more, t, Asked(acts[i], id));
    } else {
      PassEndsAll(s, more, t, Asked(acts[i], id));
    }
  }

  lemma {:induction false} RunOver(s: State, acts: seq<Action>, t: State, c: Call)
    requires Inv(s) && Run(s, acts, t) && Life(s.hist, c.id) == Ended
    ensures Life(t.hist, c.id) == Ended
    decreases |acts|
  {
    if acts != [] {
      StepBound(s, acts[0], Do(s, acts[0]), c);
      StepKeeps(s, acts[0]);
      RunOver(Do(s, acts[0]), acts[1..], t, c);
    }
  }

  // There is a listener if one came and none stopped since.
  lemma {:induction false} ListensIff(acts: seq<Action>, ss: seq<State>, k: nat)
    requires Trace(acts, ss) && k <= |acts|
    ensures ss[k].listening <==> exists j :: 0 <= j < k && ListensFrom(acts, j, k)
  {
    if k > 0 {
      ListensIff(acts, ss, k - 1);
      assert Steps(ss[k - 1], acts[k - 1], ss[k]);
      ListenStep(ss[k - 1], acts[k - 1], ss[k]);
      if acts[k - 1] == Listen {
        assert ListensFrom(acts, k - 1, k);
      } else if ss[k].listening {
        var j :| 0 <= j < k - 1 && ListensFrom(acts, j, k - 1);
        assert ListensFrom(acts, j, k);
      }
      assert forall j :: 0 <= j < k - 1 && ListensFrom(acts, j, k) ==> ListensFrom(acts, j, k - 1);
    }
  }

  ghost predicate ListensFrom(acts: seq<Action>, j: nat, k: nat)
    requires j < k <= |acts|
  {
    acts[j] == Listen && forall m :: j < m < k ==> acts[m] != StopListening
  }

  lemma ListenStep(s: State, a: Action, t: State)
    requires Steps(s, a, t)
    ensures t.listening == (a == Listen || (s.listening && a != StopListening))
  {
    if a.DropModule? { DropsListening(s, 0, a.mod); }
    if a.StopListening? { SilencesListening(s.(listening := false)); }
  }

  lemma {:induction false} DropsListening(s: State, k: nat, mod: nat)
    requires k <= |s.calls|
    ensures Drops(s, k, mod).listening == s.listening
    decreases |s.calls| - k
  {
    if k < |s.calls| {
      if s.calls[k].mod == mod {
        DropsListening(Take(s, k, Cancelled(s.calls[k].id, s.calls[k].pid, mod)), k, mod);
      } else {
        DropsListening(s, k + 1, mod);
      }
    }
  }

  lemma {:induction false} SilencesListening(s: State)
    ensures Silences(s).listening == s.listening
    decreases |s.calls|
  {
    if s.calls != [] {
      SilencesListening(Take(s, 0, Silenced(s.calls[0].id)));
    }
  }

  // Every dispatch that finds a listener opens a request of its own.
  lemma OpensItsOwn(acts: seq<Action>, ss: seq<State>, i: nat, j: nat, id: nat, next: nat)
    requires Trace(acts, ss) && i < j < |acts| && Opens(ss[i], acts[i], id) && Opens(ss[j], acts[j], next)
    ensures id < next
  {
    assert Steps(ss[i], acts[i], ss[i + 1]);
    AlwaysInv(acts, ss, i);
    StepOpens(ss[i], acts[i], ss[i + 1], id);
    LastGrows(acts, ss, i + 1, j);
  }

  lemma {:induction false} LastGrows(acts: seq<Action>, ss: seq<State>, i: nat, k: nat)
    requires Trace(acts, ss) && i <= k <= |acts|
    ensures ss[i].last <= ss[k].last
  {
    if i < k {
      LastGrows(acts, ss, i, k - 1);
      assert Steps(ss[k - 1], acts[k - 1], ss[k]);
      NotesFit(ss[k - 1], acts[k - 1], ss[k]);
    }
  }

  // ----- The timer ----------------------------------------------------------

  ghost predicate IsLeast(at: nat, calls: seq<Call>) {
    (exists c :: c in calls && c.deadline == at) && forall c :: c in calls ==> at <= c.deadline
  }

  ghost predicate OwnPass(s: State) { s.stack != [] && s.stack[0].Expiring? && s.stack[0].timer }

  // A timer that fires is spent, and one that is set stays as it is until
  // then. It is set only for the earliest deadline there is, and that when a
  // handler returns without an answer or its own pass is over, if anything is
  // open then.
  lemma TimerIs(s: State, a: Action, t: State)
    requires Inv(s) && Steps(s, a, t)
    ensures a.Timer? ==> t.armed.None?
    ensures !a.Timer? && s.armed.Some? ==> t.armed == s.armed
    ensures s.armed.None? && t.armed.Some? ==> IsLeast(t.armed.value, t.calls)
    ensures a == Return(false) && t.calls != [] ==> t.armed.Some?
    ensures a.ExpireNext? && OwnPass(s) && |t.stack| < |s.stack| && t.calls != [] ==> t.armed.Some?
  {
    StepKeeps(s, a);
    EarliestIs(t.calls);
    StepAside(s, a);
  }
}
