/** What a failure anywhere does to a transaction, over every run: it is never
    committed, and whoever reads that it was abandoned undoes it. */
module ModuleSyncAborts {
  import opened ModuleSync
  import opened ModuleSyncSteps
  import opened ModuleSyncNet
  import opened ModuleSyncCommit
  import opened ModuleSyncOnce
  import opened ModuleSyncEffects
  import opened ModuleSyncTheorems

  // ----- a failure is never committed -----

  /** The three ways a transaction fails at its coordinator: an answer is
      FAILED, a server leaves before answering, or the deadline passes. */
  predicate Fails(s: Server, input: Input, tx: TxId) {
    && s.coord.Some? && s.coord.value.tx == tx
    && match input
       case InMsg(_, msg, _, _) => msg == Failed(s.self, tx)
       case InGone(x, _, _) => x in s.coord.value.waiting
       case InTimer(_) => true
       case _ => false
  }

  ghost predicate DoomedAt(s: Server, log: seq<Msg>, tx: TxId) {
    (s.coord.Some? && s.coord.value.tx == tx && s.coord.value.failed) || Abort(tx) in log
  }

  lemma FinishAborts(s: Server, unloads: bool)
    requires s.coord.Some?
    ensures Abort(s.coord.value.tx) in FinishCoord(s, false, unloads).out
  {
    assert FinishCoord(s, false, unloads).out[0] == Abort(s.coord.value.tx);
  }

  lemma FailureDooms(s: Server, input: Input, tx: TxId)
    requires Fails(s, input, tx)
    ensures DoomedAt(React(s, input).server, React(s, input).out, tx)
  {
    match input
    case InMsg(from, _, att, _) =>
      var s1 := StopWaiting(FailCoord(s), from);
      if s1.coord.value.waiting == {} { FinishAborts(s1, att.unloads); }
    case InGone(x, at, unloads) =>
      var s1 := StopWaiting(FailCoord(s), x);
      if s1.coord.value.waiting == {} {
        FinishAborts(s1, unloads);
        var e := FinishCoord(s1, false, unloads);
        assert React(s, input).out == e.out + LoseCoordinator(e.server, x, at, unloads).out;
      }
    case InTimer(unloads) => FinishAborts(FailCoord(s.(armed := false)), unloads);
  }

  lemma AnswerDooms(s: Server, input: Input, tx: TxId)
    requires s.coord.Some? && s.coord.value.tx == tx && s.coord.value.failed
    requires input.InMsg? && (input.msg.Ready? || input.msg.Failed?)
    ensures DoomedAt(React(s, input).server, React(s, input).out, tx)
  {
    var s1 := StopWaiting(if input.msg.Ready? then s else FailCoord(s), input.from);
    if s1.coord.value.waiting == {} { FinishAborts(s1, input.att.unloads); }
  }

  lemma MessageSpares(s: Server, input: Input, tx: TxId)
    requires s.coord.Some? && s.coord.value.tx == tx && s.coord.value.failed
    requires input.InMsg? && !input.msg.Ready? && !input.msg.Failed?
    ensures DoomedAt(React(s, input).server, React(s, input).out, tx)
  {
  }

  /** Nothing that happens later changes its mind. */
  lemma DoomStays(s: Server, input: Input, tx: TxId)
    requires s.coord.Some? && s.coord.value.tx == tx && s.coord.value.failed
    ensures DoomedAt(React(s, input).server, React(s, input).out, tx)
  {
    match input
    case InMsg(_, msg, _, _) =>
      if msg.Ready? || msg.Failed? { AnswerDooms(s, input, tx); } else { MessageSpares(s, input, tx); }
    case InGone(x, _, _) => if x in s.coord.value.waiting { FailureDooms(s, input, tx); }
    case InTimer(_) => FailureDooms(s, input, tx);
    case _ =>
  }

  ghost predicate Doomed(net: Net, c: Sid, tx: TxId) {
    WF(net) && c in net.srv && DoomedAt(net.srv[c], net.log[c], tx)
  }

  lemma HappenShape(net: Net, i: Sid, input: Input, e: Effect)
    requires WF(net) && i in net.srv && Fits(net, i, input) && e == React(net.srv[i], input)
    ensures Happen(net, i, input).srv == net.srv[i := e.server]
    ensures Happen(net, i, input).log == net.log[i := net.log[i] + e.out]
  {
  }

  lemma HappenWF(net: Net, i: Sid, input: Input)
    requires Inv(net) && i in net.srv && Fits(net, i, input)
    ensures WF(Happen(net, i, input))
  {
    HappenKeeps(net, i, input);
  }

  lemma HappenDoomed(net: Net, i: Sid, input: Input, c: Sid, tx: TxId)
    requires Inv(net) && i in net.srv && Fits(net, i, input) && c in net.srv
    requires Doomed(net, c, tx) || (i == c && Fails(net.srv[c], input, tx))
    ensures Doomed(Happen(net, i, input), c, tx)
  {
    HappenWF(net, i, input);
    var e := React(net.srv[i], input);
    HappenShape(net, i, input, e);
    if i == c {
      Still(net.srv[c], net.log[c], input, tx, e);
    }
  }

  lemma Still(s: Server, log: seq<Msg>, input: Input, tx: TxId, e: Effect)
    requires e == React(s, input) && (DoomedAt(s, log, tx) || Fails(s, input, tx))
    ensures DoomedAt(e.server, log + e.out, tx)
  {
    if Fails(s, input, tx) { FailureDooms(s, input, tx); }
    else if Abort(tx) !in log { DoomStays(s, input, tx); }
  }

  lemma ActionDoomed(net: Net, act: Action, c: Sid, tx: TxId)
    requires Inv(net) && Enabled(net, act) && Doomed(net, c, tx)
    ensures Doomed(Do(net, act), c, tx)
  {
    match act
    case Act(i, input) => HappenDoomed(net, i, input, c, tx);
    case Lose(_, _, _) =>
    case Link(a, b) =>
      var net1 := Advance(net, a, b, |net.log[a]|);
      AdvanceKeeps(net, a, b, |net.log[a]|);
      var net2 := Advance(net1, b, a, |net.log[b]|);
      AdvanceKeeps(net1, b, a, |net.log[b]|);
      HappenDoomed(net2, a, InLink(b), c, tx);
      HappenKeeps(net2, a, InLink(b));
      HappenDoomed(Happen(net2, a, InLink(b)), b, InLink(a), c, tx);
  }

  lemma {:induction false} RunDoomed(net: Net, acts: seq<Action>, last: Net, c: Sid, tx: TxId)
    requires Inv(net) && Run(net, acts, last) && Doomed(net, c, tx)
    ensures Inv(last) && Doomed(last, c, tx)
    decreases |acts|
  {
    if acts != [] {
      ActionKeeps(net, acts[0]);
      ActionDoomed(net, acts[0], c, tx);
      RunDoomed(Do(net, acts[0]), acts[1..], last, c, tx);
    }
  }

  /** One failure -- a refusal read, a server gone before it answered, or the
      deadline -- and whatever happens afterwards, COMMIT is never sent; ABORT
      has been as soon as the coordinator is done with the transaction. */
  lemma FailureNeverCommits(net: Net, c: Sid, input: Input, tx: TxId, acts: seq<Action>, last: Net)
    requires Reachable(net) && WF(net) && c in net.srv && Fits(net, c, input) && Fails(net.srv[c], input, tx)
    requires Run(Happen(net, c, input), acts, last)
    ensures WF(last) && c in last.srv && Commit(tx) !in last.log[c]
    ensures Ours(last.srv[c], tx) || Abort(tx) in last.log[c]
  {
    ReachableInv(net);
    HappenDoomed(net, c, input, c, tx);
    HappenKeeps(net, c, input);
    RunDoomed(Happen(net, c, input), acts, last, c, tx);
    assert Decisions(last.srv[c], last.log[c]);
  }

  /** A server that was asked and refused: no COMMIT, in any reachable network. */
  lemma RefusedNeverCommits(net: Net, c: Sid, tx: TxId, peers: set<Sid>, p: Sid)
    requires Reachable(net) && WF(net) && c in net.srv && p in net.srv
    requires Began(tx, peers) in net.hist[c] && p in peers && Failed(c, tx) in net.log[p]
    ensures Commit(tx) !in net.log[c]
  {
    ReachableOnce(net);
    assert OnceOk(net, p);
    if Commit(tx) in net.log[c] {
      CommitIsUnanimous(net, c, tx);
    }
  }

  // ----- what was abandoned is undone -----

  /** An entry that opens a transaction is closed by a later one, or is what
      the server still has under way. */
  lemma {:induction false} ClosedOrOpen(h: seq<Note>, j: nat) returns (k: nat)
    requires RecordOk(h) && j < |h| && h[j].Prepared?
    ensures k <= |h| && (k < |h| ==> Closes(h, j, k))
    ensures k == |h| ==> SinceOf(h).Open? && SinceOf(h).prep == h[j]
                         && forall m :: j < m < |h| ==> !h[m].Prepared? && !h[m].Settled?
  {
    var front, n := h[..|h| - 1], h[|h| - 1];
    if j == |h| - 1 {
      k := |h|;
    } else {
      var i := ClosedOrOpen(front, j);
      assert forall m :: 0 <= m < |front| ==> h[m] == front[m];
      k := if i < |front| then i else if n.Settled? then |h| - 1 else |h|;
    }
  }

  /** q has read that c abandoned tx. */
  ghost predicate ReadAbort(net: Net, c: Sid, q: Sid, tx: TxId)
    requires WF(net) && c in net.srv && q in net.srv
  {
    Abort(tx) in if q == c then net.log[c] else net.log[c][..net.cur[(c, q)]]
  }

  /** Who has read the outcome has nothing of the transaction left open. */
  lemma NotOpen(net: Net, c: Sid, tx: TxId, q: Sid)
    requires Inv(net) && c in net.srv && q in net.srv && tx.origin == c && ReadAbort(net, c, q, tx)
    ensures net.srv[q].part.Some? ==> net.srv[q].part.value.tx != tx
  {
    var s := net.srv[q];
    assert LocalOk(s) && CrossOk(net, q) && Decisions(net.srv[c], net.log[c]);
  }

  /** Every server that prepared a transaction and has read ABORT for it has
      closed it as abandoned: a load is undone, an unload never happened. */
  lemma AbortUndoes(net: Net, c: Sid, tx: TxId, q: Sid, j: nat) returns (k: nat)
    requires Reachable(net) && WF(net) && c in net.srv && q in net.srv && tx.origin == c
    requires j < |net.hist[q]| && net.hist[q][j].Prepared? && net.hist[q][j].tx == tx && ReadAbort(net, c, q, tx)
    ensures Closes(net.hist[q], j, k) && !net.hist[q][k].committed && Commit(tx) !in net.log[c]
    ensures var prep, end := net.hist[q][j], net.hist[q][k];
            !Rehashes(net.hist[q], j, k) ==>
              && (prep.op == Unload ==> end.result == prep.prior)
              && (prep.op == Load && end.unloads ==> end.result == prep.prior)
              && (prep.op == Reload && end.unloads ==> end.result == prep.prior - {prep.name})
  {
    ReachableInv(net);
    var h := net.hist[q];
    assert EffectInv(net.srv[q], h) && CrossOk(net, q) && Decisions(net.srv[c], net.log[c]);
    NotOpen(net, c, tx, q);
    k := ClosedOrOpen(h, j);
    assert k < |h|;
    assert SettledNote(net, q, h[k]);
    var i := SettledOnce(net, q, k);
    assert i == j;
  }

  // ----- who follows the outcome -----

  /** Once a transaction has been applied anywhere, whoever is done with it has
      applied it if and only if it was told the outcome: the others gave up at
      their own deadline or when they lost the coordinator. */
  lemma AppliedIffTold(net: Net, p: Sid, applied: Note, q: Sid, n: Note)
    requires Reachable(net) && WF(net) && p in net.srv && q in net.srv
    requires applied in net.hist[p] && applied.Settled? && applied.committed
    requires n in net.hist[q] && n.Settled? && n.tx == applied.tx
    ensures n.committed <==> n.why == Told
  {
    ReachableInv(net);
    assert CrossOk(net, p) && CrossOk(net, q);
    assert SettledNote(net, p, applied) && SettledNote(net, q, n);
    assert Decisions(net.srv[n.tx.origin], net.log[n.tx.origin]);
  }

  // ----- an abandoned reload -----

  /** The server could let the module go when it came to that, or never had it. */
  predicate LetGo(n: Note)
    requires n.Refused? || n.Settled?
  {
    if n.Refused? then n.name !in n.prior || (n.free && n.unloads) else n.unloads
  }

  /** Entry k says how q left the reload `tx` of `name`: it refused it, or
      closed what entry j opened, with no rehash in between. */
  ghost predicate Ends(h: seq<Note>, tx: TxId, k: nat) {
    && k < |h| && (h[k].Refused? || h[k].Settled?) && h[k].tx == tx
    && forall j :: Closes(h, j, k) ==> !Rehashes(h, j, k)
  }

  function LeftBy(n: Note): ModuleSet
    requires n.Refused? || n.Settled?
  {
    if n.Refused? then n.after else n.result
  }

  /** c asked for the reload of `name` as tx. */
  ghost predicate Reloads(net: Net, c: Sid, tx: TxId, name: string) {
    c in net.log && Prepare(tx, Reload, name) in net.log[c]
  }

  /** What is on record about tx is on record about this reload. */
  lemma SameReload(net: Net, c: Sid, tx: TxId, name: string, q: Sid, n: Note)
    requires OnceInv(net) && c in net.srv && q in net.srv && tx.origin == c && Reloads(net, c, tx, name)
    requires n in net.hist[q] && Handles(n) && n.tx == tx
    ensures n.op == Reload && n.name == name && (q == c ==> n.Prepared?)
  {
    assert OnceOk(net, q) && OnceOk(net, c) && EntryHome(net, q, n);
    var a :| 0 <= a < |net.log[c]| && net.log[c][a] == Prepare(tx, Reload, name);
    assert Asks(net.log[c][a], tx);
    if q != c || n.Prepared? {
      var b :| 0 <= b < |net.log[c]| && net.log[c][b] == Prepare(tx, n.op, n.name);
      assert a == b;
    }
  }

  lemma RefusedLeaves(net: Net, c: Sid, tx: TxId, name: string, q: Sid, k: nat)
    requires Inv(net) && OnceInv(net) && Records(net)
    requires c in net.srv && q in net.srv && tx.origin == c && Reloads(net, c, tx, name)
    requires Ends(net.hist[q], tx, k) && net.hist[q][k].Refused?
    ensures name !in LeftBy(net.hist[q][k]) <==> LetGo(net.hist[q][k])
  {
    var h, n := net.hist[q], net.hist[q][k];
    SameReload(net, c, tx, name, q, n);
    PrefixOk(h, k + 1);
    assert h[..k + 1][..k] == h[..k] && h[..k + 1][k] == n;
  }

  /** How one server leaves an abandoned reload. */
  lemma GoneIffLetGo(net: Net, c: Sid, tx: TxId, name: string, q: Sid, k: nat)
    requires Reachable(net) && WF(net) && c in net.srv && q in net.srv && tx.origin == c
    requires Reloads(net, c, tx, name) && Abort(tx) in net.log[c] && Ends(net.hist[q], tx, k)
    ensures name !in LeftBy(net.hist[q][k]) <==> LetGo(net.hist[q][k])
  {
    ReachableInv(net);
    ReachableOnce(net);
    var h, n := net.hist[q], net.hist[q][k];
    if n.Refused? {
      RefusedLeaves(net, c, tx, name, q, k);
    } else {
      var j := SettledOnce(net, q, k);
      SameReload(net, c, tx, name, q, h[j]);
      assert CrossOk(net, q) && SettledNote(net, q, n) && Decisions(net.srv[c], net.log[c]);
    }
  }

  /** The reload is abandoned and everyone concerned is done with it. */
  ghost predicate AllDone(net: Net, asked: set<Sid>, tx: TxId)
    requires WF(net)
  {
    forall q :: q in asked ==> q in net.srv && exists k: nat :: Ends(net.hist[q], tx, k)
  }

  ghost predicate GoneFrom(net: Net, asked: set<Sid>, tx: TxId, name: string)
    requires WF(net) && AllDone(net, asked, tx)
  {
    forall q, k: nat :: q in asked && Ends(net.hist[q], tx, k) ==> name !in LeftBy(net.hist[q][k])
  }

  ghost predicate LetGoBy(net: Net, asked: set<Sid>, tx: TxId)
    requires WF(net) && AllDone(net, asked, tx)
  {
    forall q, k: nat :: q in asked && Ends(net.hist[q], tx, k) ==> LetGo(net.hist[q][k])
  }

  /** An abandoned reload leaves the module gone on every server it concerned
      if and only if each of them was free to take part and could let the
      module go, or never had it. */
  lemma ReloadGoneIff(net: Net, c: Sid, tx: TxId, name: string, asked: set<Sid>)
    requires Reachable(net) && WF(net) && c in net.srv && tx.origin == c
    requires Reloads(net, c, tx, name) && Abort(tx) in net.log[c] && AllDone(net, asked, tx)
    ensures GoneFrom(net, asked, tx, name) <==> LetGoBy(net, asked, tx)
  {
    forall q, k: nat | q in asked && Ends(net.hist[q], tx, k)
      ensures name !in LeftBy(net.hist[q][k]) <==> LetGo(net.hist[q][k])
    {
      GoneIffLetGo(net, c, tx, name, q, k);
    }
  }
}
