/** The results about the module protocol, over every run from servers that
    have just started. */
module ModuleSyncTheorems {
  import opened ModuleSync
  import opened ModuleSyncSteps
  import opened ModuleSyncNet
  import opened ModuleSyncCommit
  import opened ModuleSyncOnce
  import opened ModuleSyncEffects
  import opened ModuleSyncLinks

  // ----- every run keeps what the other files prove of one step -----

  lemma HappenRecords(net: Net, i: Sid, input: Input)
    requires Inv(net) && Records(net) && i in net.srv && Fits(net, i, input)
    ensures Inv(Happen(net, i, input)) && Records(Happen(net, i, input))
  {
    HappenKeeps(net, i, input);
    ReactIsRight(net.srv[i], net.hist[i], input);
  }

  lemma ActionRecords(net: Net, act: Action)
    requires Inv(net) && Records(net) && Enabled(net, act)
    ensures Inv(Do(net, act)) && Records(Do(net, act))
  {
    ActionKeeps(net, act);
    match act
    case Act(i, input) => HappenRecords(net, i, input);
    case Lose(_, _, _) =>
    case Link(a, b) =>
      var net1 := Advance(net, a, b, |net.log[a]|);
      AdvanceKeeps(net, a, b, |net.log[a]|);
      var net2 := Advance(net1, b, a, |net.log[b]|);
      AdvanceKeeps(net1, b, a, |net.log[b]|);
      HappenRecords(net2, a, InLink(b));
      HappenRecords(Happen(net2, a, InLink(b)), b, InLink(a));
  }

  lemma {:induction false} RunRecords(net: Net, acts: seq<Action>, last: Net)
    requires Inv(net) && Records(net) && Run(net, acts, last)
    ensures Records(last)
    decreases |acts|
  {
    if acts != [] {
      ActionRecords(net, acts[0]);
      RunRecords(Do(net, acts[0]), acts[1..], last);
    }
  }

  ghost predicate Reachable(net: Net) {
    exists start, acts :: Initial(start) && Run(start, acts, net)
  }

  lemma ReachableInv(net: Net)
    requires Reachable(net)
    ensures Inv(net) && Records(net)
  {
    var start, acts :| Initial(start) && Run(start, acts, net);
    InitialInv(start);
    RunKeeps(start, acts, net);
    RunRecords(start, acts, net);
  }

  // ----- atomic commit -----

  /** COMMIT goes out only for a transaction its coordinator began and
      prepared, that every server it asked prepared and said READY to, and
      that is never abandoned. */
  lemma CommitIsUnanimous(net: Net, c: Sid, tx: TxId)
    requires Reachable(net) && c in net.log && Commit(tx) in net.log[c]
    ensures WF(net) && tx.origin == c && Abort(tx) !in net.log[c]
    ensures HasBegan(net.hist[c], tx) && HasPrepared(net.hist[c], tx)
    ensures forall peers, p :: Began(tx, peers) in net.hist[c] && p in peers ==>
              p in net.srv && Ready(c, tx) in net.log[p] && HasPrepared(net.hist[p], tx)
  {
    ReachableInv(net);
    assert CrossOk(net, c) && MsgHome(net.srv[c], Commit(tx));
    forall peers, p | Began(tx, peers) in net.hist[c] && p in peers
      ensures p in net.srv && Ready(c, tx) in net.log[p] && HasPrepared(net.hist[p], tx)
    {
      assert AllReady(net, tx, peers) && SaidReady(net, p, tx);
      assert ReadyOk(net.log[p], net.hist[p]);
    }
  }

  /** p's stream from the coordinator went past `at` and held the COMMIT there. */
  ghost predicate WentFurther(net: Net, p: Sid, tx: TxId, at: nat)
    requires WF(net) && p in net.srv && tx.origin in net.srv
  {
    exists k :: at <= k < |net.log[tx.origin]| && net.log[tx.origin][k] == Commit(tx)
                && (p != tx.origin ==> k < net.cur[(tx.origin, p)])
  }

  lemma PastTheCut(net: Net, p: Sid, applied: Note, at: nat)
    requires WF(net) && p in net.srv && applied.Settled? && applied.committed && SettledNote(net, p, applied)
    requires at <= |net.log[applied.tx.origin]| && Unread(net.log[applied.tx.origin], at, applied.tx)
    ensures WentFurther(net, p, applied.tx, at)
  {
    var c := applied.tx.origin;
    var seen := if p != c then net.log[c][..net.cur[(c, p)]] else net.log[c];
    var k :| 0 <= k < |seen| && seen[k] == Commit(applied.tx);
    assert net.log[c][k] == Commit(applied.tx);
    assert Outcome(net.log[c][k], applied.tx);
  }

  /** If p applied a transaction and q undid the same one, then q gave up by
      itself: its own deadline passed, or it was cut off from the coordinator
      at a point of the coordinator's stream that lies before the COMMIT, and
      p was not. */
  lemma Agreement(net: Net, p: Sid, q: Sid, applied: Note, undone: Note)
    requires Reachable(net) && p in net.srv && q in net.srv && p in net.hist && q in net.hist
    requires applied in net.hist[p] && applied.Settled? && applied.committed
    requires undone in net.hist[q] && undone.Settled? && !undone.committed && undone.tx == applied.tx
    ensures WF(net) && applied.tx.origin in net.srv
    ensures || undone.why == Deadline
            || (undone.why.CoordinatorLost? && WentFurther(net, p, applied.tx, undone.why.at))
  {
    ReachableInv(net);
    assert CrossOk(net, p) && CrossOk(net, q);
    assert SettledNote(net, p, applied) && SettledNote(net, q, undone);
    assert Decisions(net.srv[applied.tx.origin], net.log[applied.tx.origin]);
    if undone.why.CoordinatorLost? { PastTheCut(net, p, applied, undone.why.at); }
  }

  // ----- the record of a transaction on one server -----

  /** Entry k closes the transaction that entry j opened. */
  ghost predicate Closes(h: seq<Note>, j: nat, k: nat) {
    && j < k < |h| && h[j].Prepared? && h[k].Settled? && h[j].tx == h[k].tx
    && forall m :: j < m < k ==> !h[m].Prepared? && !h[m].Settled?
  }

  ghost predicate Rehashes(h: seq<Note>, j: nat, k: nat)
    requires k <= |h|
  {
    exists m :: j < m < k && h[m].Rehashed?
  }

  lemma {:induction false} PrefixOk(h: seq<Note>, k: nat)
    requires RecordOk(h) && k <= |h|
    ensures RecordOk(h[..k])
    decreases |h|
  {
    if k == |h| {
      assert h[..k] == h;
    } else {
      PrefixOk(h[..|h| - 1], k);
      assert h[..|h| - 1][..k] == h[..k];
    }
  }

  /** What SinceOf says, in terms of positions on the record. */
  lemma {:induction false} OpenedAt(h: seq<Note>) returns (j: nat)
    requires SinceOf(h).Open?
    ensures j < |h| && h[j] == SinceOf(h).prep && h[j].Prepared?
    ensures forall m :: j < m < |h| ==> !h[m].Prepared? && !h[m].Settled?
    ensures SinceOf(h).touched <==> Rehashes(h, j, |h|)
  {
    var front, n := h[..|h| - 1], h[|h| - 1];
    if n.Prepared? {
      j := |h| - 1;
    } else {
      j := OpenedAt(front);
      assert forall m :: j < m < |front| ==> h[m] == front[m];
      if Rehashes(front, j, |front|) {
        var m :| j < m < |front| && front[m].Rehashed?;
        assert h[m].Rehashed?;
      }
    }
  }

  lemma OpenedOnce(h: seq<Note>, k: nat) returns (j: nat)
    requires RecordOk(h) && k < |h| && h[k].Settled?
    ensures Closes(h, j, k) && Prepares(h[j])
    ensures !Rehashes(h, j, k) ==> h[k].result == Left(h[j], h[k].committed, h[k].unloads)
  {
    PrefixOk(h, k + 1);
    assert h[..k + 1][..k] == h[..k];
    j := OpenedAt(h[..k]);
    PrefixOk(h, j + 1);
    assert h[..j + 1][..j] == h[..j];
    assert h[j] == h[..k][j];
    assert forall m :: j < m < k ==> h[..k][m] == h[m];
    if Rehashes(h[..k], j, k) {
      var m :| j < m < k && h[..k][m].Rehashed?;
      assert h[m].Rehashed?;
    }
  }

  lemma ReachableOnce(net: Net)
    requires Reachable(net)
    ensures OnceInv(net)
  {
    var start, acts :| Initial(start) && Run(start, acts, net);
    InitialInv(start);
    InitialOnce(start);
    RunOnce(start, acts, net);
  }

  /** Only one entry can close what one entry opened. */
  lemma ClosesOnce(h: seq<Note>, j: nat, k: nat)
    requires RecordOk(h) && OneEntry(h) && Closes(h, j, k)
    ensures forall m :: 0 <= m < |h| && h[m].Settled? && h[m].tx == h[k].tx ==> m == k
  {
    forall m | 0 <= m < |h| && h[m].Settled? && h[m].tx == h[k].tx ensures m == k {
      var i := OpenedOnce(h, m);
      assert i == j;
    }
  }

  /** On every server, in every run: a transaction is prepared at most once and
      settled at most once, and what is settled was prepared before, by an
      entry with nothing else opened or closed in between; and unless a rehash
      replaced the set meanwhile, what is left is what Left says. */
  lemma SettledOnce(net: Net, q: Sid, k: nat) returns (j: nat)
    requires Reachable(net) && q in net.srv && q in net.hist
    requires k < |net.hist[q]| && net.hist[q][k].Settled?
    ensures Closes(net.hist[q], j, k) && Prepares(net.hist[q][j])
    ensures !Rehashes(net.hist[q], j, k) ==>
              net.hist[q][k].result == Left(net.hist[q][j], net.hist[q][k].committed, net.hist[q][k].unloads)
    ensures var h := net.hist[q];
            && (forall m :: 0 <= m < |h| && h[m].Settled? && h[m].tx == h[k].tx ==> m == k)
            && (forall m :: 0 <= m < |h| && h[m].Prepared? && h[m].tx == h[k].tx ==> m == j)
  {
    ReachableInv(net);
    ReachableOnce(net);
    assert OnceOk(net, q);
    j := OpenedOnce(net.hist[q], k);
    ClosesOnce(net.hist[q], j, k);
  }

  /** Two servers that were told the outcome of a transaction they prepared
      from the same set, to the same set, end with the same set -- the old one
      or the new one -- if their loaders let a module go when asked. */
  lemma SameOutcome(net: Net, p: Sid, k: nat, j: nat, q: Sid, k': nat, j': nat)
    requires Reachable(net) && WF(net) && p in net.srv && q in net.srv
    requires Closes(net.hist[p], j, k) && Closes(net.hist[q], j', k') && net.hist[p][j] == net.hist[q][j']
    requires net.hist[p][k].why == Told && net.hist[q][k'].why == Told
    requires net.hist[p][k].unloads && net.hist[q][k'].unloads
    requires !Rehashes(net.hist[p], j, k) && !Rehashes(net.hist[q], j', k')
    ensures net.hist[p][k].committed == net.hist[q][k'].committed
    ensures net.hist[p][k].result == net.hist[q][k'].result
  {
    if net.hist[p][k].committed && !net.hist[q][k'].committed {
      Agreement(net, p, q, net.hist[p][k], net.hist[q][k']);
    }
    if net.hist[q][k'].committed && !net.hist[p][k].committed {
      Agreement(net, q, p, net.hist[q][k'], net.hist[p][k]);
    }
    var j0 := SettledOnce(net, p, k);
    var j1 := SettledOnce(net, q, k');
    assert j0 == j && j1 == j';
  }

  // ----- one transaction at a time -----

  predicate Ours(s: Server, tx: TxId) {
    || (s.coord.Some? && s.coord.value.tx == tx)
    || (s.part.Some? && s.part.value.tx == tx)
  }

  /** What starts another transaction, or is about one that is not under way here. */
  predicate Foreign(s: Server, input: Input) {
    match input
    case InBegin(_, _, _, _) => true
    case InMsg(_, Prepare(_, _, _), _, _) => true
    case InMsg(_, Ready(_, tx), _, _) => !Ours(s, tx)
    case InMsg(_, Failed(_, tx), _, _) => !Ours(s, tx)
    case InMsg(_, Commit(tx), _, _) => !Ours(s, tx)
    case InMsg(_, Abort(tx), _, _) => !Ours(s, tx)
    case _ => false
  }

  /** While a transaction is under way no other gets in: it is refused to
      whoever asked, and the server, its modules included, stays as it was. */
  lemma OthersAreRefused(s: Server, input: Input)
    requires s.Busy() && Foreign(s, input)
    ensures var e := React(s, input);
            && e.server == s
            && e.out == (if input.InMsg? && input.msg.Prepare? then [Failed(input.from, input.msg.tx)] else [])
            && forall n :: n in e.notes ==> n.Refused? && n.prior == n.after == s.modules
  {
  }

  lemma TimerEnds(s: Server, unloads: bool)
    requires LocalOk(s) && s.Busy()
    ensures s.armed && !React(s, InTimer(unloads)).server.Busy()
  {
    var late := s.(armed := false);
    if s.coord.Some? {
      FinishFacts(FailCoord(late), false, unloads);
    } else {
      SettleFacts(late, false, Deadline, unloads);
    }
  }

  /** No transaction outlives its deadline: on every reachable server one that
      is under way has the timer running, and the timer ends it. */
  lemma DeadlineEnds(net: Net, i: Sid, s: Server, unloads: bool)
    requires Reachable(net) && i in net.srv && net.srv[i] == s && s.Busy()
    ensures s.armed && !React(s, InTimer(unloads)).server.Busy()
  {
    assert LocalOk(s) by { ReachableInv(net); }
    TimerEnds(s, unloads);
  }

  // ----- the link rule -----

  /** No event of the run is one of the silent ones. */
  ghost predicate LoudRun(net: Net, acts: seq<Action>)
    decreases |acts|
  {
    acts == [] || (!SilentAct(net, acts[0]) && WF(net) && Enabled(net, acts[0]) && LoudRun(Do(net, acts[0]), acts[1..]))
  }

  lemma AdvanceLinks(net: Net, src: Sid, dst: Sid, to: nat)
    requires LinkInv(net) && src in net.srv && dst in net.srv && !Linked(net, src, dst)
    requires net.cur[(src, dst)] <= to <= |net.log[src]|
    ensures LinkInv(Advance(net, src, dst, to))
  {
    var net' := Advance(net, src, dst, to);
    forall a, b | a in net'.srv && b in net'.srv ensures LinkOk(net', a, b) {
      assert LinkOk(net, a, b);
    }
  }

  lemma ActionLinks(net: Net, act: Action)
    requires Inv(net) && LinkInv(net) && Enabled(net, act) && !SilentAct(net, act)
    ensures LinkInv(Do(net, act))
  {
    ActionKeeps(net, act);
    match act
    case Act(i, input) =>
      InputFits(net, i, input);
      ActLinks(net, i, input);
    case Lose(src, dst, upto) => AdvanceLinks(net, src, dst, upto);
    case Link(a, b) =>
      LinkShape(net, a, b);
      LinkLinks(net, a, b, Do(net, act));
  }

  lemma {:induction false} RunLinks(net: Net, acts: seq<Action>, last: Net)
    requires Inv(net) && LinkInv(net) && Run(net, acts, last) && LoudRun(net, acts)
    ensures LinkInv(last) && Inv(last)
    decreases |acts|
  {
    if acts != [] {
      ActionLinks(net, acts[0]);
      ActionKeeps(net, acts[0]);
      RunLinks(Do(net, acts[0]), acts[1..], last);
    }
  }

  /** Nothing is under way on the link between a and b. */
  predicate Quiet(net: Net, a: Sid, b: Sid)
    requires a in net.srv && b in net.srv
  {
    && !net.srv[a].Busy() && !net.srv[b].Busy()
    && a in net.log && b in net.log && (a, b) in net.cur && (b, a) in net.cur
    && net.cur[(a, b)] == |net.log[a]| && net.cur[(b, a)] == |net.log[b]|
  }

  lemma InitialLinks(net: Net)
    requires Initial(net)
    ensures LinkInv(net)
  {
  }

  lemma QuietLink(net: Net, a: Sid, b: Sid)
    requires LinkInv(net) && a in net.srv && b in net.srv && a != b && Linked(net, a, b)
    requires net.srv[a].sync && net.srv[b].sync && Quiet(net, a, b)
    ensures net.srv[a].modules == net.srv[b].modules
  {
    assert LinkOk(net, a, b);
  }

  /** Two linked servers that keep the rule run equal sets as soon as neither
      is in a transaction and both have read what the other sent. */
  lemma QuietLinksAgree(start: Net, acts: seq<Action>, net: Net, a: Sid, b: Sid)
    requires Initial(start) && Run(start, acts, net) && LoudRun(start, acts)
    requires a in net.srv && b in net.srv && a != b && Linked(net, a, b) && net.srv[a].sync && net.srv[b].sync
    requires Quiet(net, a, b)
    ensures net.srv[a].modules == net.srv[b].modules
  {
    InitialInv(start);
    InitialLinks(start);
    RunLinks(start, acts, net);
    QuietLink(net, a, b);
  }

  /** Nothing new is on its way over a link that was quiet and was told nothing. */
  lemma NothingOnItsWay(log: seq<Msg>, out: seq<Msg>, b: Sid, modules: ModuleSet)
    requires forall m :: m in out ==> !Tells(m, b)
    ensures !LastTold(log + out, |log|, b, modules)
  {
    forall k | |log| <= k < |log + out| ensures (log + out)[k] != Announce(b, modules) {
      assert (log + out)[k] == out[k - |log|];
      assert !Tells(out[k - |log|], b);
    }
  }

  lemma SilentKeepsLinks(s: Server, input: Input)
    requires LocalOk(s) && InputOk(s, input) && Silent(s, input)
    ensures React(s, input).server.down == s.down && React(s, input).server.sync == s.sync
    ensures !React(s, input).server.Busy()
  {
  }

  /** And a silent event does break the rule: whenever a quiet link's other end
      does not happen to run what the event leaves, the two differ afterwards
      with nothing under way that could tell them. */
  lemma SilentBreaks(net: Net, i: Sid, input: Input, b: Sid)
    requires Inv(net) && i in net.srv && b in net.srv && i != b && Fits(net, i, input) && SilentAct(net, Act(i, input))
    requires Linked(net, i, b) && net.srv[b].sync && !net.srv[b].Busy()
    requires net.cur[(b, i)] == |net.log[b]| && net.cur[(i, b)] == |net.log[i]|
    requires net.srv[b].modules != React(net.srv[i], input).server.modules
    ensures WF(Happen(net, i, input)) && !LinkOk(Happen(net, i, input), i, b)
  {
    InputFits(net, i, input);
    var s, e := net.srv[i], React(net.srv[i], input);
    ReactFacts(s, input);
    HappenWF(net, i, input);
    SilentKeepsLinks(s, input);
    UnannouncedIffSilent(s, input, b);
    NothingOnItsWay(net.log[i], e.out, b, e.server.modules);
    Differ(net, i, input, e, Happen(net, i, input), b);
  }

  lemma Differ(net: Net, i: Sid, input: Input, e: Effect, net': Net, b: Sid)
    requires WF(net) && WF(net') && i in net.srv && b in net.srv && i != b
    requires net'.srv == net.srv[i := e.server] && net'.log == net.log[i := net.log[i] + e.out]
    requires net'.cur[(i, b)] == |net.log[i]| && net'.cur[(b, i)] == |net.log[b]|
    requires Linked(net', i, b) && e.server.sync && net.srv[b].sync && !e.server.Busy() && !net.srv[b].Busy()
    requires net.srv[b].modules != e.server.modules && !LastTold(net.log[i] + e.out, |net.log[i]|, b, e.server.modules)
    ensures !LinkOk(net', i, b)
  {
  }
}
