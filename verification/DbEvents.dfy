/**
 * Calls told from what happened: for the call that one submission placed,
 * whether its callback runs, when it may leave and what must take it away, in
 * terms of that event and no other.
 */
module DbEvents {
  import opened Options
  import opened Db
  import opened DbTheorems

  // ----- One step -----------------------------------------------------------

  ghost predicate Steps(s: State, a: Action, t: State) { Enabled(s, a) && t == Do(s, a) }

  // What a step says.
  ghost function New(s: State, t: State): seq<Note> {
    if |s.hist| <= |t.hist| then t.hist[|s.hist|..] else []
  }

  // The driver is about to answer for this call.
  ghost predicate IsAsked(s: State, id: nat) { s.stack != [] && s.stack[0] == Submitting(id) }

  // Which event says what of a call.
  ghost predicate Fits(s: State, a: Action, n: Note) {
    match n
    case Placed(id, _) => a.Submit? && s.driver.Some? && s.configured && id == s.next
    case Withdrawn(id) => a == Answer(false) && IsAsked(s, id)
    case Completed(id, _) => a.Complete? && a.id == id
    case Failed(_, _) => a == FailNext
    case Dropped(_, mod) => a == DropModule(mod)
    case _ => true
  }

  lemma {:induction false} DropsFit(s: State, k: nat, mod: nat)
    requires k <= |s.calls|
    ensures var t := Drops(s, k, mod);
            && s.hist <= t.hist
            && forall p :: |s.hist| <= p < |t.hist| ==> t.hist[p].Dropped? && t.hist[p].mod == mod
    decreases |s.calls| - k
  {
    if k < |s.calls| {
      if s.calls[k].owner == Some(mod) {
        DropsFit(Take(s, k, Dropped(s.calls[k].id, mod)), k, mod);
      } else {
        DropsFit(s, k + 1, mod);
      }
    }
  }

  ghost predicate AllFit(s: State, a: Action, hist: seq<Note>) {
    s.hist <= hist && forall p :: |s.hist| <= p < |hist| ==> Fits(s, a, hist[p])
  }

  lemma FinishFits(s: State, a: Action, t: State)
    requires a.Complete? && Steps(s, a, t)
    ensures AllFit(s, a, t.hist) && s.next <= t.next
  {
    var i := Find(s.calls, a.id);
    var s1 := if i < |s.calls| then Take(s, i, Completed(a.id, s.calls[i].wants)) else s;
    var s2 := Deliver(s1, a.data);
    assert AllFit(s, a, s.hist);
    if i < |s.calls| { MoreFits(s, a, s.hist, Completed(a.id, s.calls[i].wants)); }
    if a.data.Some? { MoreFits(s, a, s1.hist, Delivered(s.results, a.data.value)); }
    if t.hist != s2.hist { MoreFits(s, a, s2.hist, Return(s2, s.results).hist[|s2.hist|]); }
  }

  lemma MoreFits(s: State, a: Action, hist: seq<Note>, n: Note)
    requires AllFit(s, a, hist) && Fits(s, a, n)
    ensures AllFit(s, a, hist + [n])
  {
  }

  lemma OneFits(s: State, a: Action, hist: seq<Note>, n: Note)
    requires hist == s.hist + [n] && Fits(s, a, n)
    ensures AllFit(s, a, hist)
  {
  }

  lemma AnswerFits(s: State, a: Action, t: State)
    requires Steps(s, a, t) && (a.Answer? || a.FailNext? || a.Release?)
    ensures AllFit(s, a, t.hist) && s.next <= t.next
  {
    if t.hist != s.hist { OneFits(s, a, t.hist, t.hist[|s.hist|]); }
  }

  lemma StepFits(s: State, a: Action, t: State)
    requires Steps(s, a, t)
    ensures AllFit(s, a, t.hist) && s.next <= t.next
  {
    match a
    case DropModule(gone) =>
      DropsFit(s, 0, gone);
      DropsNext(s, 0, gone);
    case Complete(_, _) => FinishFits(s, a, t);
    case Answer(_) => AnswerFits(s, a, t);
    case FailNext => AnswerFits(s, a, t);
    case Release => AnswerFits(s, a, t);
    case Submit(_, _) => if Places(s, a, s.next) { OneFits(s, a, t.hist, t.hist[|s.hist|]); }
    case _ =>
  }

  lemma AllNew(s: State, a: Action, t: State)
    requires AllFit(s, a, t.hist)
    ensures t.hist == s.hist + New(s, t)
    ensures forall p :: 0 <= p < |New(s, t)| ==> Fits(s, a, New(s, t)[p])
  {
  }

  lemma NotesFit(s: State, a: Action, t: State)
    requires Steps(s, a, t)
    ensures t.hist == s.hist + New(s, t) && s.next <= t.next
    ensures forall p :: 0 <= p < |New(s, t)| ==> Fits(s, a, New(s, t)[p])
  {
    StepFits(s, a, t);
    AllNew(s, a, t);
  }

  // A call is listed as c has it, or has left.
  ghost predicate Bound(hist: seq<Note>, c: Call) {
    Life(hist, c.id) == Listed(c) || Life(hist, c.id).Gone?
  }

  lemma {:induction false} BoundOn(hist: seq<Note>, more: seq<Note>, c: Call)
    requires Bound(hist, c) && Life(hist + more, c.id) != Wrong
    ensures Bound(hist + more, c) && (Life(hist, c.id).Gone? ==> Life(hist + more, c.id).Gone?)
    decreases |more|
  {
    if more == [] {
      assert hist + more == hist;
    } else {
      var m := |more| - 1;
      LifeNext(hist + more[..m], more[m], c.id);
      assert hist + more == hist + more[..m] + [more[m]];
      BoundOn(hist, more[..m], c);
    }
  }

  lemma NeverWrong(s: State, id: nat)
    requires Inv(s)
    ensures Life(s.hist, id) != Wrong
  {
    assert Tracks(s, id);
  }

  lemma StepBound(s: State, a: Action, t: State, c: Call)
    requires Inv(s) && Steps(s, a, t) && Bound(s.hist, c)
    ensures Bound(t.hist, c) && (Life(s.hist, c.id).Gone? ==> Life(t.hist, c.id).Gone?)
  {
    StepKeeps(s, a);
    NeverWrong(t, c.id);
    NotesFit(s, a, t);
    BoundOn(s.hist, New(s, t), c);
  }

  // A submission places the next call if there is a driver and a configuration.
  ghost predicate Places(s: State, a: Action, id: nat) {
    a.Submit? && s.driver.Some? && s.configured && id == s.next
  }

  ghost function Asked(a: Action, id: nat): Call
    requires a.Submit?
  {
    Call(id, a.wants, a.owner)
  }

  lemma StepPlaces(s: State, a: Action, t: State, id: nat)
    requires Inv(s) && Steps(s, a, t) && Places(s, a, id)
    ensures Life(t.hist, id) == Listed(Asked(a, id)) && t.next == id + 1 && t.stack == [Submitting(id)] + s.stack
  {
    assert Tracks(s, id);
    LifeNext(s.hist, Placed(id, Asked(a, id)), id);
  }

  // What is said of a call in one step.
  lemma SaidOf(s: State, t: State, c: Call, q: nat)
    requires Inv(t) && t.hist == s.hist + New(s, t) && Bound(s.hist, c)
    requires q < |New(s, t)| && (Leaves(New(s, t)[q], c.id) || (New(s, t)[q].Placed? && New(s, t)[q].id == c.id))
    ensures Life(s.hist, c.id) == Listed(c) && Lives(Listed(c), c.id, New(s, t)[q]).Gone?
  {
    var p, new_ := |s.hist| + q, New(s, t);
    NeverWrong(t, c.id);
    NeverWrongBefore(t.hist, p, c.id);
    NeverWrongBefore(t.hist, p + 1, c.id);
    assert t.hist[..p] == s.hist + new_[..q] && t.hist[..p + 1] == t.hist[..p] + [new_[q]];
    BoundOn(s.hist, new_[..q], c);
    LifeNext(t.hist[..p], new_[q], c.id);
  }

  lemma SaidFits(s: State, a: Action, t: State, c: Call, n: Note)
    requires Inv(t) && Steps(s, a, t) && Bound(s.hist, c) && n in New(s, t) && Leaves(n, c.id)
    ensures Life(s.hist, c.id) == Listed(c) && Lives(Listed(c), c.id, n).Gone? && Fits(s, a, n)
  {
    NotesFit(s, a, t);
    var q :| 0 <= q < |New(s, t)| && New(s, t)[q] == n;
    SaidOf(s, t, c, q);
  }

  lemma ListedIsThere(s: State, c: Call)
    requires Inv(s) && Bound(s.hist, c)
    ensures c in s.calls <==> Life(s.hist, c.id) == Listed(c)
    ensures forall d :: d in s.calls && d.id == c.id ==> d == c
  {
    assert Tracks(s, c.id);
    forall d | d in s.calls && d.id == c.id ensures d == c && c in s.calls {
      var i :| 0 <= i < |s.calls| && s.calls[i] == d;
      var j :| 0 <= j < |s.calls| && s.calls[j] == c;
    }
  }

  // ----- Runs ---------------------------------------------------------------

  // A run: what happened, and the states between.
  ghost predicate Trace(acts: seq<Action>, ss: seq<State>) {
    && |ss| == |acts| + 1 && ss[0] == Start
    && forall k :: 0 <= k < |acts| ==> Steps(ss[k], acts[k], ss[k + 1])
  }

  // Every run is one of these, and these are runs.
  lemma {:induction false} TraceOf(s: State, acts: seq<Action>, t: State) returns (ss: seq<State>)
    requires Run(s, acts, t)
    ensures |ss| == |acts| + 1 && ss[0] == s && ss[|acts|] == t
    ensures forall k :: 0 <= k < |acts| ==> Steps(ss[k], acts[k], ss[k + 1])
    decreases |acts|
  {
    if acts == [] {
      ss := [s];
    } else {
      var rest := TraceOf(Do(s, acts[0]), acts[1..], t);
      ss := [s] + rest;
      forall k | 0 <= k < |acts| ensures Steps(ss[k], acts[k], ss[k + 1]) {
        assert k > 0 ==> Steps(rest[k - 1], acts[1..][k - 1], rest[k]);
      }
    }
  }

  lemma {:induction false} RunOf(acts: seq<Action>, ss: seq<State>, k: nat, more: seq<Action>)
    requires Trace(acts, ss) && k <= |acts| && more == acts[k..]
    ensures Run(ss[k], more, ss[|acts|])
    decreases |acts| - k
  {
    if k < |acts| {
      assert Steps(ss[k], acts[k], ss[k + 1]);
      assert more[0] == acts[k] && more[1..] == acts[k + 1..];
      RunOf(acts, ss, k + 1, more[1..]);
    }
  }

  lemma {:induction false} AlwaysInv(acts: seq<Action>, ss: seq<State>, k: nat)
    requires Trace(acts, ss) && k <= |acts|
    ensures Inv(ss[k])
  {
    if k > 0 {
      AlwaysInv(acts, ss, k - 1);
      assert Steps(ss[k - 1], acts[k - 1], ss[k]);
      StepKeeps(ss[k - 1], acts[k - 1]);
    }
  }

  lemma {:induction false} StaysBound(acts: seq<Action>, ss: seq<State>, i: nat, id: nat, k: nat)
    requires Trace(acts, ss) && i < k <= |acts| && Places(ss[i], acts[i], id)
    ensures Bound(ss[k].hist, Asked(acts[i], id))
  {
    AlwaysInv(acts, ss, k - 1);
    assert Steps(ss[k - 1], acts[k - 1], ss[k]);
    if k == i + 1 {
      StepPlaces(ss[i], acts[i], ss[k], id);
    } else {
      StaysBound(acts, ss, i, id, k - 1);
      StepBound(ss[k - 1], acts[k - 1], ss[k], Asked(acts[i], id));
    }
  }

  lemma {:induction false} StaysGone(acts: seq<Action>, ss: seq<State>, i: nat, id: nat, e: nat, k: nat)
    requires Trace(acts, ss) && i < e <= k <= |acts| && Places(ss[i], acts[i], id) && Life(ss[e].hist, id).Gone?
    ensures Life(ss[k].hist, id).Gone?
    decreases k
  {
    if e < k {
      StaysGone(acts, ss, i, id, e, k - 1);
      AlwaysInv(acts, ss, k - 1);
      assert Steps(ss[k - 1], acts[k - 1], ss[k]);
      StepBound(ss[k - 1], acts[k - 1], ss[k], Asked(acts[i], id));
    }
  }

  // ----- Why it leaves, and whether it is called ----------------------------

  // Whatever takes away the call that submission i placed is an answer that
  // names it, or the failing of what is left, and then its callback runs if and
  // only if that submission gave one; or the driver's refusal of that very
  // call, or the unloading of the module that submission named, and then it
  // does not.
  lemma LeavesAsAsked(acts: seq<Action>, ss: seq<State>, i: nat, id: nat, k: nat, n: Note)
    requires Trace(acts, ss) && i < k < |acts| && Places(ss[i], acts[i], id)
    requires n in New(ss[k], ss[k + 1]) && Leaves(n, id)
    ensures n.Completed? ==> acts[k].Complete? && acts[k].id == id
    ensures n.Failed? ==> acts[k] == FailNext
    ensures n.Withdrawn? ==> acts[k] == Answer(false) && IsAsked(ss[k], id)
    ensures n.Dropped? ==> acts[k].DropModule? && acts[i].owner == Some(acts[k].gone)
    ensures Calls(n, id) <==> acts[i].wants && (n.Completed? || n.Failed?)
  {
    assert Steps(ss[k], acts[k], ss[k + 1]);
    AlwaysInv(acts, ss, k + 1);
    StaysBound(acts, ss, i, id, k);
    SaidFits(ss[k], acts[k], ss[k + 1], Asked(acts[i], id), n);
  }

  // Unloading a module takes away exactly the calls that it submitted.
  lemma UnloadTakesIff(acts: seq<Action>, ss: seq<State>, i: nat, id: nat, k: nat)
    requires Trace(acts, ss) && i < k < |acts| && Places(ss[i], acts[i], id)
    requires acts[k].DropModule? && !Life(ss[k].hist, id).Gone?
    ensures Life(ss[k + 1].hist, id).Gone? <==> acts[i].owner == Some(acts[k].gone)
  {
    assert Steps(ss[k], acts[k], ss[k + 1]);
    AlwaysInv(acts, ss, k);
    AlwaysInv(acts, ss, k + 1);
    StaysBound(acts, ss, i, id, k);
    StaysBound(acts, ss, i, id, k + 1);
    ListedIsThere(ss[k], Asked(acts[i], id));
    ListedIsThere(ss[k + 1], Asked(acts[i], id));
    DropsClear(ss[k], 0, acts[k].gone);
  }

  // After a module is unloaded no callback runs for anything it submitted
  // before, whatever the driver answers.
  lemma NoneAfterUnload(acts: seq<Action>, ss: seq<State>, i: nat, id: nat, k: nat, m: nat, n: Note)
    requires Trace(acts, ss) && i < k <= m < |acts| && Places(ss[i], acts[i], id)
    requires acts[k].DropModule? && acts[i].owner == Some(acts[k].gone) && n in New(ss[m], ss[m + 1])
    ensures !Calls(n, id)
  {
    assert Steps(ss[m], acts[m], ss[m + 1]);
    if k == m {
      UnloadIsSilent(ss[m], acts[m], ss[m + 1], n, id);
    } else {
      AlwaysInv(acts, ss, m + 1);
      GoneAfterUnload(acts, ss, i, id, k);
      StaysGone(acts, ss, i, id, k + 1, m);
      NotSaid(ss[m], acts[m], ss[m + 1], Asked(acts[i], id), n);
    }
  }

  lemma UnloadIsSilent(s: State, a: Action, t: State, n: Note, id: nat)
    requires Steps(s, a, t) && a.DropModule? && n in New(s, t)
    ensures !Calls(n, id)
  {
    NotesFit(s, a, t);
    var q :| 0 <= q < |New(s, t)| && New(s, t)[q] == n;
    assert Fits(s, a, New(s, t)[q]);
  }

  // Of a call that has left nothing is said.
  lemma NotSaid(s: State, a: Action, t: State, c: Call, n: Note)
    requires Inv(t) && Steps(s, a, t) && Life(s.hist, c.id).Gone? && n in New(s, t)
    ensures !Calls(n, c.id)
  {
    NotesFit(s, a, t);
    var q :| 0 <= q < |New(s, t)| && New(s, t)[q] == n;
    if Calls(n, c.id) { SaidOf(s, t, c, q); }
  }

  lemma GoneAfterUnload(acts: seq<Action>, ss: seq<State>, i: nat, id: nat, k: nat)
    requires Trace(acts, ss) && i < k < |acts| && Places(ss[i], acts[i], id)
    requires acts[k].DropModule? && acts[i].owner == Some(acts[k].gone)
    ensures Life(ss[k + 1].hist, id).Gone?
  {
    if Life(ss[k].hist, id).Gone? {
      StaysGone(acts, ss, i, id, k, k + 1);
    } else {
      UnloadTakesIff(acts, ss, i, id, k);
    }
  }

  // An answer that names it takes it away if it is still there, and its
  // callback, if the submission gave one, runs then and there.
  lemma AnswerCalls(acts: seq<Action>, ss: seq<State>, i: nat, id: nat, k: nat)
    requires Trace(acts, ss) && i < k < |acts| && Places(ss[i], acts[i], id) && acts[k].Complete? && acts[k].id == id
    ensures Life(ss[k + 1].hist, id).Gone?
    ensures Completed(id, acts[i].wants) in New(ss[k], ss[k + 1]) <==> !Life(ss[k].hist, id).Gone?
    ensures !Life(ss[k].hist, id).Gone? && acts[i].wants ==> |ss[k + 1].stack| > 0 && ss[k + 1].stack[0].Calling?
  {
    assert Steps(ss[k], acts[k], ss[k + 1]);
    AlwaysInv(acts, ss, k);
    AlwaysInv(acts, ss, k + 1);
    StaysBound(acts, ss, i, id, k);
    FinishOne(ss[k], acts[k], ss[k + 1], Asked(acts[i], id));
  }

  lemma FinishOne(s: State, a: Action, t: State, c: Call)
    requires Inv(s) && Inv(t) && Steps(s, a, t) && Bound(s.hist, c) && a.Complete? && a.id == c.id
    ensures Life(t.hist, c.id).Gone?
    ensures Completed(c.id, c.wants) in New(s, t) <==> !Life(s.hist, c.id).Gone?
    ensures !Life(s.hist, c.id).Gone? && c.wants ==> |t.stack| > 0 && t.stack[0].Calling?
  {
    ListedIsThere(s, c);
    NotesFit(s, a, t);
    var p := Find(s.calls, c.id);
    if p < |s.calls| {
      assert s.calls[p] in s.calls;
      assert New(s, t)[0] == Completed(c.id, c.wants);
      FinishGone(s, a, t, c, p);
    } else {
      assert forall j :: 0 <= j < |s.calls| ==> s.calls[j] != c;
      assert forall n :: n in New(s, t) ==> !n.Completed?;
      StepBound(s, a, t, c);
    }
  }

  lemma FinishGone(s: State, a: Action, t: State, c: Call, p: nat)
    requires Inv(s) && Inv(t) && Steps(s, a, t) && Bound(s.hist, c) && a.Complete? && a.id == c.id
    requires p == Find(s.calls, c.id) < |s.calls|
    ensures Life(t.hist, c.id).Gone?
  {
    WithoutIs(s.calls, p);
    assert t.calls == s.calls[..p] + s.calls[p + 1..];
    assert Tracks(t, c.id) && Tracks(s, c.id);
    StepBound(s, a, t, c);
  }

  // ----- The driver and the configuration -----------------------------------

  // The event withdraws a driver of `mod`.
  predicate Withdraws(a: Action, mod: Option<nat>) {
    a == Unregister(mod) || (a.DropModule? && mod == Some(a.gone))
  }

  ghost predicate RegisteredFrom(acts: seq<Action>, ss: seq<State>, mod: Option<nat>, j: nat, k: nat)
    requires j < k <= |acts| < |ss|
  {
    acts[j] == Register(mod) && ss[j].driver.None? && forall m :: j < m < k ==> !Withdraws(acts[m], mod)
  }

  ghost predicate Drives(s: State, mod: Option<nat>) { s.driver.Some? && s.driver.value.mod == mod }

  lemma DriverStep(s: State, a: Action, t: State, mod: Option<nat>)
    requires Steps(s, a, t)
    ensures Drives(t, mod) <==> (Drives(s, mod) && !Withdraws(a, mod)) || (a == Register(mod) && s.driver.None?)
    ensures t.configured == (if a.Configure? then a.on else s.configured)
    ensures s.driver.Some? && t.driver.None? ==> t.stack == [Failing] + s.stack
  {
    if a.DropModule? {
      DropsStack(s, 0, a.gone);
      DropsConfigured(s, 0, a.gone);
    }
  }

  lemma {:induction false} DropsConfigured(s: State, k: nat, mod: nat)
    requires k <= |s.calls|
    ensures Drops(s, k, mod).configured == s.configured
    decreases |s.calls| - k
  {
    if k < |s.calls| {
      if s.calls[k].owner == Some(mod) {
        DropsConfigured(Take(s, k, Dropped(s.calls[k].id, mod)), k, mod);
      } else {
        DropsConfigured(s, k + 1, mod);
      }
    }
  }

  // There is a driver of a module just when one registered while there was
  // none, and has not been withdrawn since.
  lemma {:induction false} DriverIff(acts: seq<Action>, ss: seq<State>, mod: Option<nat>, k: nat)
    requires Trace(acts, ss) && k <= |acts|
    ensures Drives(ss[k], mod) <==> exists j :: 0 <= j < k && RegisteredFrom(acts, ss, mod, j, k)
  {
    if k > 0 {
      DriverIff(acts, ss, mod, k - 1);
      assert Steps(ss[k - 1], acts[k - 1], ss[k]);
      DriverStep(ss[k - 1], acts[k - 1], ss[k], mod);
      if acts[k - 1] == Register(mod) && ss[k - 1].driver.None? {
        assert RegisteredFrom(acts, ss, mod, k - 1, k);
      } else if Drives(ss[k], mod) {
        var j :| 0 <= j < k - 1 && RegisteredFrom(acts, ss, mod, j, k - 1);
        assert RegisteredFrom(acts, ss, mod, j, k);
      }
      assert forall j ::
          0 <= j < k - 1 && RegisteredFrom(acts, ss, mod, j, k) ==> RegisteredFrom(acts, ss, mod, j, k - 1);
    }
  }

  // The configuration is as the last event that set it left it.
  lemma {:induction false} ConfiguredIs(acts: seq<Action>, ss: seq<State>, k: nat) returns (j: nat)
    requires Trace(acts, ss) && k <= |acts|
    ensures j <= k && forall m :: j <= m < k ==> !acts[m].Configure?
    ensures j > 0 ==> acts[j - 1] == Configure(ss[k].configured)
    ensures j == 0 ==> !ss[k].configured
  {
    if k == 0 {
      return 0;
    }
    assert Steps(ss[k - 1], acts[k - 1], ss[k]);
    DriverStep(ss[k - 1], acts[k - 1], ss[k], None);
    j := ConfiguredIs(acts, ss, k - 1);
    if acts[k - 1].Configure? {
      j := k;
    }
  }

  // Every submission that is taken places a call of its own.
  lemma PlacesItsOwn(acts: seq<Action>, ss: seq<State>, i: nat, j: nat, id: nat, next: nat)
    requires Trace(acts, ss) && i < j < |acts| && Places(ss[i], acts[i], id) && Places(ss[j], acts[j], next)
    ensures id < next
  {
    assert Steps(ss[i], acts[i], ss[i + 1]);
    AlwaysInv(acts, ss, i);
    StepPlaces(ss[i], acts[i], ss[i + 1], id);
    NumbersGrow(acts, ss, i + 1, j);
  }

  lemma {:induction false} NumbersGrow(acts: seq<Action>, ss: seq<State>, i: nat, k: nat)
    requires Trace(acts, ss) && i <= k <= |acts|
    ensures ss[i].next <= ss[k].next
  {
    if i < k {
      NumbersGrow(acts, ss, i, k - 1);
      assert Steps(ss[k - 1], acts[k - 1], ss[k]);
      NotesFit(ss[k - 1], acts[k - 1], ss[k]);
    }
  }
}
