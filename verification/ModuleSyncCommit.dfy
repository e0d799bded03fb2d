/** Atomic commit, over every run of the network. */
module ModuleSyncCommit {
  import opened ModuleSync
  import opened ModuleSyncSteps
  import opened ModuleSyncNet

  // ----- the invariant -----

  /** A line about a transaction's progress comes from its coordinator, an
      answer goes to it. */
  predicate MsgHome(s: Server, m: Msg) {
    match m
    case Prepare(tx, _, _) => tx.origin == s.self && tx.serial <= s.serial
    case Commit(tx) => tx.origin == s.self && tx.serial <= s.serial
    case Abort(tx) => tx.origin == s.self && tx.serial <= s.serial
    case Ready(to, tx) => to == tx.origin
    case Failed(to, tx) => to == tx.origin
    case _ => true
  }

  ghost predicate Provenance(s: Server, log: seq<Msg>, hist: seq<Note>) {
    && (forall m :: m in log ==> MsgHome(s, m))
    && (forall n :: n in hist && n.Began? ==> n.tx.origin == s.self && n.tx.serial <= s.serial)
  }

  /** No transaction is decided twice, and one still being coordinated is not
      decided yet. */
  ghost predicate Decisions(s: Server, log: seq<Msg>) {
    && (forall tx :: Commit(tx) in log ==> Abort(tx) !in log)
    && (s.coord.Some? ==> Commit(s.coord.value.tx) !in log && Abort(s.coord.value.tx) !in log)
  }

  ghost predicate Order(log: seq<Msg>) {
    forall j, k :: 0 <= j < k < |log| && log[k].Prepare? ==> !Outcome(log[j], log[k].tx)
  }

  ghost predicate Unread(log: seq<Msg>, upto: nat, tx: TxId)
    requires upto <= |log|
  {
    forall k :: 0 <= k < upto ==> !Outcome(log[k], tx)
  }

  /** A participant has not yet read the outcome of what it prepared. */
  ghost predicate PartOk(net: Net, q: Sid)
    requires WF(net) && q in net.srv
  {
    var s := net.srv[q];
    s.part.Some? && s.part.value.coordinator != q ==>
      var c := s.part.value.coordinator;
      c in net.srv && Unread(net.log[c], net.cur[(c, q)], s.part.value.tx)
  }

  ghost predicate ReadyOk(log: seq<Msg>, hist: seq<Note>) {
    forall m :: m in log && m.Ready? ==> HasPrepared(hist, m.tx)
  }

  ghost predicate SaidReady(net: Net, p: Sid, tx: TxId) {
    p in net.log && Ready(tx.origin, tx) in net.log[p]
  }

  ghost predicate AllReady(net: Net, tx: TxId, peers: set<Sid>) {
    forall p :: p in peers ==> SaidReady(net, p, tx)
  }

  ghost predicate HasBegan(hist: seq<Note>, tx: TxId) {
    exists peers :: Began(tx, peers) in hist
  }

  ghost predicate Asked(net: Net, c: Sid, tx: TxId)
    requires c in net.hist
  {
    HasBegan(net.hist[c], tx) && HasPrepared(net.hist[c], tx)
  }

  /** Whoever was asked still owes an answer, has said READY, or has failed the
      transaction. */
  ghost predicate CoordOk(net: Net, c: Sid)
    requires WF(net) && c in net.srv
  {
    var s := net.srv[c];
    s.coord.Some? ==>
      && Asked(net, c, s.coord.value.tx)
      && (forall peers, p :: Began(s.coord.value.tx, peers) in net.hist[c] && p in peers ==>
            p in s.coord.value.waiting || s.coord.value.failed || SaidReady(net, p, s.coord.value.tx))
  }

  ghost predicate CommitOk(net: Net, c: Sid)
    requires WF(net) && c in net.srv
  {
    forall tx :: Commit(tx) in net.log[c] ==>
      && Asked(net, c, tx)
      && (forall peers :: Began(tx, peers) in net.hist[c] ==> AllReady(net, tx, peers))
  }

  /** What the record of a settled transaction means for its coordinator's stream. */
  ghost predicate SettledNote(net: Net, q: Sid, n: Note)
    requires WF(net) && q in net.srv && n.Settled?
  {
    var c := n.tx.origin;
    && c in net.srv
    && (n.committed ==> n.why == Told && Commit(n.tx) in net.log[c]
                        && (c != q ==> Commit(n.tx) in net.log[c][..net.cur[(c, q)]]))
    && (!n.committed && n.why == Told ==> Abort(n.tx) in net.log[c])
    && (!n.committed && n.why.CoordinatorLost? ==>
          n.why.at <= |net.log[c]| && Unread(net.log[c], n.why.at, n.tx))
  }

  ghost predicate SettledOk(net: Net, q: Sid)
    requires WF(net) && q in net.srv
  {
    forall n :: n in net.hist[q] && n.Settled? ==> SettledNote(net, q, n)
  }

  // ----- one server's event keeps it: the facts about its own stream -----

  lemma KeepsProvenance(s: Server, log: seq<Msg>, hist: seq<Note>, input: Input, e: Effect)
    requires Provenance(s, log, hist) && InputOk(s, input) && StepFacts(s, input, e)
    requires Decisions(s, log) && LocalOk(s)
    ensures Provenance(e.server, log + e.out, hist + e.notes)
  {
    forall m | m in log + e.out ensures MsgHome(e.server, m) {
      if m in log { assert MsgHome(s, m); } else { assert MsgFacts(s, input, e, m); }
    }
    forall n | n in hist + e.notes && n.Began?
      ensures n.tx.origin == e.server.self && n.tx.serial <= e.server.serial
    {
      if n !in hist { assert NoteFacts(s, input, e, n); }
    }
  }

  lemma FreshTx(s: Server, log: seq<Msg>, hist: seq<Note>, tx: TxId)
    requires Provenance(s, log, hist) && tx == NewTx(s)
    ensures Commit(tx) !in log && Abort(tx) !in log
    ensures forall peers :: Began(tx, peers) !in hist
  {
    assert Commit(tx) in log ==> MsgHome(s, Commit(tx));
    assert Abort(tx) in log ==> MsgHome(s, Abort(tx));
  }

  lemma KeepsDecisions(s: Server, log: seq<Msg>, hist: seq<Note>, input: Input, e: Effect)
    requires Provenance(s, log, hist) && Decisions(s, log) && LocalOk(s) && StepFacts(s, input, e)
    ensures Decisions(e.server, log + e.out)
  {
    FreshTx(s, log, hist, NewTx(s));
    forall tx | Commit(tx) in log + e.out ensures Abort(tx) !in log + e.out {
      assert Commit(tx) in e.out ==> MsgFacts(s, input, e, Commit(tx));
      assert Abort(tx) in e.out ==> MsgFacts(s, input, e, Abort(tx));
    }
    if e.server.coord.Some? {
      var tx := e.server.coord.value.tx;
      assert Commit(tx) in e.out ==> MsgFacts(s, input, e, Commit(tx));
      assert Abort(tx) in e.out ==> MsgFacts(s, input, e, Abort(tx));
    }
  }

  lemma KeepsOrder(s: Server, log: seq<Msg>, hist: seq<Note>, input: Input, e: Effect)
    requires Provenance(s, log, hist) && Order(log) && StepFacts(s, input, e)
    ensures Order(log + e.out)
  {
    var all := log + e.out;
    forall j, k | 0 <= j < k < |all| && all[k].Prepare? ensures !Outcome(all[j], all[k].tx) {
      if k >= |log| {
        assert all[k] == e.out[k - |log|];
        assert MsgFacts(s, input, e, all[k]);
        FreshTx(s, log, hist, all[k].tx);
        assert k == |log|;
        assert all[j] in log;
      }
    }
  }

  lemma PreparedStays(hist: seq<Note>, more: seq<Note>, tx: TxId)
    requires HasPrepared(hist, tx) || HasPrepared(more, tx)
    ensures HasPrepared(hist + more, tx)
  {
    var n :| (n in hist || n in more) && IsPrepared(n, tx);
    assert n in hist + more;
  }

  lemma KeepsReady(s: Server, log: seq<Msg>, hist: seq<Note>, input: Input, e: Effect)
    requires ReadyOk(log, hist) && StepFacts(s, input, e)
    ensures ReadyOk(log + e.out, hist + e.notes)
  {
    forall m | m in log + e.out && m.Ready? ensures HasPrepared(hist + e.notes, m.tx) {
      if m !in log { assert MsgFacts(s, input, e, m); }
      PreparedStays(hist, e.notes, m.tx);
    }
  }

  // ----- one server's event keeps it: the facts that tie servers together -----

  /** The shape every Act step has. */
  ghost predicate Stepped(net: Net, i: Sid, input: Input, e: Effect, net': Net) {
    && WF(net) && WF(net') && i in net.srv && Fits(net, i, input)
    && StepFacts(net.srv[i], input, e)
    && net'.srv == net.srv[i := e.server]
    && net'.log == net.log[i := net.log[i] + e.out]
    && net'.hist == net.hist[i := net.hist[i] + e.notes]
    && net'.cur == if input.InMsg? then net.cur[(input.from, i) := net.cur[(input.from, i)] + 1] else net.cur
  }

  lemma KeepsPartOther(net: Net, i: Sid, input: Input, e: Effect, net': Net, q: Sid)
    requires Stepped(net, i, input, e, net') && q in net.srv && q != i && PartOk(net, q)
    ensures PartOk(net', q)
  {
    var s' := net'.srv[q];
    if s'.part.Some? && s'.part.value.coordinator != q {
      var c, tx := s'.part.value.coordinator, s'.part.value.tx;
      forall k | 0 <= k < net'.cur[(c, q)] ensures !Outcome(net'.log[c][k], tx) {
        assert net'.log[c][k] == net.log[c][k];
      }
    }
  }

  lemma KeepsPartSelf(net: Net, i: Sid, input: Input, e: Effect, net': Net)
    requires Stepped(net, i, input, e, net')
    requires LocalOk(net.srv[i]) && PartOk(net, i) && forall j :: j in net.srv ==> Order(net.log[j])
    ensures PartOk(net', i)
  {
    var s' := net'.srv[i];
    if s'.part.Some? && s'.part.value.coordinator != i {
      var c, tx := s'.part.value.coordinator, s'.part.value.tx;
      if input.InMsg? && c == input.from {
        assert Order(net.log[c]);
      }
      assert c in net.srv;
      forall k | 0 <= k < net'.cur[(c, i)] ensures !Outcome(net'.log[c][k], tx) {
        assert net'.log[c][k] == net.log[c][k];
      }
    }
  }

  lemma KeepsPart(net: Net, i: Sid, input: Input, e: Effect, net': Net, q: Sid)
    requires Stepped(net, i, input, e, net') && q in net.srv
    requires LocalOk(net.srv[q]) && PartOk(net, q) && forall j :: j in net.srv ==> Order(net.log[j])
    ensures PartOk(net', q)
  {
    if q == i {
      KeepsPartSelf(net, i, input, e, net');
    } else {
      KeepsPartOther(net, i, input, e, net', q);
    }
  }

  lemma SaidReadyStays(net: Net, i: Sid, input: Input, e: Effect, net': Net)
    requires Stepped(net, i, input, e, net')
    ensures forall p, tx :: SaidReady(net, p, tx) ==> SaidReady(net', p, tx)
  {
  }

  lemma AskedStays(net: Net, i: Sid, input: Input, e: Effect, net': Net, c: Sid, tx: TxId)
    requires Stepped(net, i, input, e, net') && c in net.srv && Asked(net, c, tx)
    ensures Asked(net', c, tx)
  {
    var peers :| Began(tx, peers) in net.hist[c];
    assert Began(tx, peers) in net'.hist[c];
    PreparedStays(net.hist[c], net'.hist[c][|net.hist[c]|..], tx);
    assert net'.hist[c] == net.hist[c] + net'.hist[c][|net.hist[c]|..];
  }

  /** The only new record of having begun is of a new transaction. */
  lemma OldBegan(net: Net, i: Sid, input: Input, e: Effect, net': Net, c: Sid, tx: TxId, peers: set<Sid>)
    requires Stepped(net, i, input, e, net') && c in net.srv && Began(tx, peers) in net'.hist[c]
    ensures Began(tx, peers) in net.hist[c]
        || (c == i && input.InBegin? && tx == NewTx(net.srv[i]) && peers == input.peers)
  {
    if Began(tx, peers) !in net.hist[c] {
      assert NoteFacts(net.srv[i], input, e, Began(tx, peers));
    }
  }

  lemma AnswerRead(net: Net, i: Sid, input: Input, e: Effect, net': Net, tx: TxId, x: Sid)
    requires Stepped(net, i, input, e, net') && Answers(input, net.srv[i], tx, x) && tx.origin == i
    ensures SaidReady(net', x, tx)
  {
    assert net.log[x][net.cur[(x, i)]] == Ready(i, tx);
  }

  lemma NewCoord(net: Net, i: Sid, input: Input, e: Effect, net': Net)
    requires Stepped(net, i, input, e, net') && Provenance(net.srv[i], net.log[i], net.hist[i])
    requires input.InBegin? && e.server.coord.Some? && e.server.coord.value.tx == NewTx(net.srv[i])
    requires CoordFacts(net.srv[i], input, e) && LocalOk(net.srv[i])
    ensures CoordOk(net', i)
  {
    var tx := NewTx(net.srv[i]);
    FreshTx(net.srv[i], net.log[i], net.hist[i], tx);
    assert Began(tx, input.peers) in net'.hist[i];
    PreparedStays(net.hist[i], e.notes, tx);
    forall peers, p | Began(tx, peers) in net'.hist[i] && p in peers ensures p in e.server.coord.value.waiting {
      OldBegan(net, i, input, e, net', i, tx, peers);
    }
  }

  lemma KeepsCoord(net: Net, i: Sid, input: Input, e: Effect, net': Net, c: Sid)
    requires Stepped(net, i, input, e, net') && c in net.srv && LocalOk(net.srv[c])
    requires Provenance(net.srv[c], net.log[c], net.hist[c]) && CoordOk(net, c)
    ensures CoordOk(net', c)
  {
    var k' := net'.srv[c].coord;
    if k'.Some? {
      var tx := k'.value.tx;
      if c == i && !(net.srv[i].coord.Some? && net.srv[i].coord.value.tx == tx) {
        NewCoord(net, i, input, e, net');
      } else {
        AskedStays(net, i, input, e, net', c, tx);
        SaidReadyStays(net, i, input, e, net');
        forall peers, p | Began(tx, peers) in net'.hist[c] && p in peers
          ensures p in k'.value.waiting || k'.value.failed || SaidReady(net', p, tx)
        {
          OldBegan(net, i, input, e, net', c, tx, peers);
          if c == i && Answers(input, net.srv[i], tx, p) { AnswerRead(net, i, input, e, net', tx, p); }
        }
      }
    }
  }

  lemma NewCommit(net: Net, i: Sid, input: Input, e: Effect, net': Net, tx: TxId)
    requires Stepped(net, i, input, e, net') && LocalOk(net.srv[i])
    requires Provenance(net.srv[i], net.log[i], net.hist[i]) && CoordOk(net, i)
    requires Commit(tx) in e.out && MsgFacts(net.srv[i], input, e, Commit(tx))
    ensures Asked(net', i, tx)
    ensures forall peers :: Began(tx, peers) in net'.hist[i] ==> AllReady(net', tx, peers)
  {
    var s := net.srv[i];
    if input.InBegin? {
      FreshTx(s, net.log[i], net.hist[i], tx);
      assert Began(tx, {}) in net'.hist[i];
      PreparedStays(net.hist[i], e.notes, tx);
    } else {
      AskedStays(net, i, input, e, net', i, tx);
      SaidReadyStays(net, i, input, e, net');
      AnswerRead(net, i, input, e, net', tx, input.from);
    }
    forall peers | Began(tx, peers) in net'.hist[i] ensures AllReady(net', tx, peers) {
      OldBegan(net, i, input, e, net', i, tx, peers);
    }
  }

  lemma KeepsCommit(net: Net, i: Sid, input: Input, e: Effect, net': Net, c: Sid)
    requires Stepped(net, i, input, e, net') && c in net.srv && LocalOk(net.srv[c])
    requires Provenance(net.srv[c], net.log[c], net.hist[c]) && CoordOk(net, c) && CommitOk(net, c)
    ensures CommitOk(net', c)
  {
    SaidReadyStays(net, i, input, e, net');
    forall tx | Commit(tx) in net'.log[c]
      ensures Asked(net', c, tx)
      ensures forall peers :: Began(tx, peers) in net'.hist[c] ==> AllReady(net', tx, peers)
    {
      if Commit(tx) in net.log[c] {
        AskedStays(net, i, input, e, net', c, tx);
        assert MsgHome(net.srv[c], Commit(tx));
        forall peers | Began(tx, peers) in net'.hist[c] ensures AllReady(net', tx, peers) {
          OldBegan(net, i, input, e, net', c, tx, peers);
        }
      } else {
        assert MsgFacts(net.srv[i], input, e, Commit(tx));
        NewCommit(net, i, input, e, net', tx);
      }
    }
  }

  lemma SettledStays(net: Net, i: Sid, input: Input, e: Effect, net': Net, q: Sid, n: Note)
    requires Stepped(net, i, input, e, net') && q in net.srv && n.Settled? && SettledNote(net, q, n)
    ensures SettledNote(net', q, n)
  {
    var c := n.tx.origin;
    var was := net.log[c];
    var now := net'.log[c];
    assert now[..|was|] == was;
    if n.committed && c != q {
      assert net.cur[(c, q)] <= net'.cur[(c, q)];
      assert was[..net.cur[(c, q)]] == now[..net'.cur[(c, q)]][..net.cur[(c, q)]];
    }
  }

  lemma NewSettled(net: Net, i: Sid, input: Input, e: Effect, net': Net, n: Note)
    requires Stepped(net, i, input, e, net') && n.Settled? && n in e.notes && LocalOk(net.srv[i]) && PartOk(net, i)
    requires forall j :: j in net.srv ==> Provenance(net.srv[j], net.log[j], net.hist[j])
    ensures SettledNote(net', i, n)
  {
    assert NoteFacts(net.srv[i], input, e, n);
    var c := n.tx.origin;
    if input.InMsg? {
      var k := net.cur[(input.from, i)];
      assert MsgHome(net.srv[input.from], net.log[input.from][k]);
      assert net'.log[input.from][..k + 1][k] == net.log[input.from][k];
    }
    assert c in net.srv;
    if n.why.CoordinatorLost? {
      forall k | 0 <= k < n.why.at ensures !Outcome(net'.log[c][k], n.tx) {
        assert net'.log[c][k] == net.log[c][k];
      }
    }
  }

  lemma KeepsSettled(net: Net, i: Sid, input: Input, e: Effect, net': Net, q: Sid)
    requires Stepped(net, i, input, e, net') && q in net.srv && SettledOk(net, q)
    requires LocalOk(net.srv[i]) && PartOk(net, i)
    requires forall j :: j in net.srv ==> Provenance(net.srv[j], net.log[j], net.hist[j])
    ensures SettledOk(net', q)
  {
    forall n | n in net'.hist[q] && n.Settled? ensures SettledNote(net', q, n) {
      if n in net.hist[q] { SettledStays(net, i, input, e, net', q, n); }
      else { NewSettled(net, i, input, e, net', n); }
    }
  }

  // ----- every action keeps the invariant -----

  lemma InputFits(net: Net, i: Sid, input: Input)
    requires WF(net) && i in net.srv && Fits(net, i, input)
    requires forall j :: j in net.srv ==> Provenance(net.srv[j], net.log[j], net.hist[j])
    ensures InputOk(net.srv[i], input)
  {
    if input.InMsg? {
      assert MsgHome(net.srv[input.from], net.log[input.from][net.cur[(input.from, i)]]);
    }
  }

  lemma ActShape(net: Net, i: Sid, input: Input, e: Effect, net': Net)
    requires WF(net) && i in net.srv && Fits(net, i, input) && StepFacts(net.srv[i], input, e)
    requires net' == Apply(if input.InMsg? then Advance(net, input.from, i, net.cur[(input.from, i)] + 1)
        else net, i, e)
    ensures Stepped(net, i, input, e, net')
  {
    forall a, b | a in net'.srv && b in net'.srv ensures (a, b) in net'.cur && net'.cur[(a, b)] <= |net'.log[a]| {
    }
  }

  /** One server and the stream it has sent. */
  ghost predicate StreamOk(s: Server, log: seq<Msg>, hist: seq<Note>) {
    LocalOk(s) && Provenance(s, log, hist) && Decisions(s, log) && Order(log) && ReadyOk(log, hist)
  }

  ghost predicate StreamInv(net: Net) {
    WF(net) && forall i :: i in net.srv ==> StreamOk(net.srv[i], net.log[i], net.hist[i])
  }

  lemma KeepsStream(s: Server, log: seq<Msg>, hist: seq<Note>, input: Input, e: Effect)
    requires StreamOk(s, log, hist) && InputOk(s, input) && StepFacts(s, input, e)
    ensures StreamOk(e.server, log + e.out, hist + e.notes)
  {
    KeepsProvenance(s, log, hist, input, e);
    KeepsDecisions(s, log, hist, input, e);
    KeepsOrder(s, log, hist, input, e);
    KeepsReady(s, log, hist, input, e);
  }

  lemma KeepsStreams(net: Net, i: Sid, input: Input, e: Effect, net': Net)
    requires StreamInv(net) && Stepped(net, i, input, e, net') && InputOk(net.srv[i], input)
    ensures StreamInv(net')
  {
    forall q | q in net'.srv ensures StreamOk(net'.srv[q], net'.log[q], net'.hist[q]) {
      assert StreamOk(net.srv[q], net.log[q], net.hist[q]);
      if q == i { KeepsStream(net.srv[i], net.log[i], net.hist[i], input, e); }
    }
  }

  ghost predicate CrossOk(net: Net, q: Sid)
    requires WF(net) && q in net.srv
  {
    PartOk(net, q) && CoordOk(net, q) && CommitOk(net, q) && SettledOk(net, q)
  }

  ghost predicate Inv(net: Net) {
    StreamInv(net) && forall q :: q in net.srv ==> CrossOk(net, q)
  }

  lemma KeepsCross(net: Net, i: Sid, input: Input, e: Effect, net': Net, q: Sid)
    requires Inv(net) && Stepped(net, i, input, e, net') && q in net.srv
    ensures CrossOk(net', q)
  {
    assert CrossOk(net, q) && CrossOk(net, i);
    KeepsPart(net, i, input, e, net', q);
    KeepsCoord(net, i, input, e, net', q);
    KeepsCommit(net, i, input, e, net', q);
    KeepsSettled(net, i, input, e, net', q);
  }

  lemma HappenKeeps(net: Net, i: Sid, input: Input)
    requires Inv(net) && i in net.srv && Fits(net, i, input)
    ensures Inv(Happen(net, i, input))
  {
    InputFits(net, i, input);
    ReactFacts(net.srv[i], input);
    var e, net' := React(net.srv[i], input), Happen(net, i, input);
    ActShape(net, i, input, e, net');
    KeepsStreams(net, i, input, e, net');
    forall q | q in net'.srv ensures CrossOk(net', q) { KeepsCross(net, i, input, e, net', q); }
  }

  lemma AdvanceKeepsCross(net: Net, src: Sid, dst: Sid, to: nat, q: Sid)
    requires WF(net) && src in net.srv && dst in net.srv && !Depends(net.srv[dst], src)
    requires net.cur[(src, dst)] <= to <= |net.log[src]| && q in net.srv && CrossOk(net, q)
    ensures CrossOk(Advance(net, src, dst, to), q)
  {
    var net' := Advance(net, src, dst, to);
    forall n | n in net'.hist[q] && n.Settled? ensures SettledNote(net', q, n) {
      assert SettledNote(net, q, n);
      var c := n.tx.origin;
      if n.committed && c != q {
        assert net.log[c][..net.cur[(c, q)]] == net.log[c][..net'.cur[(c, q)]][..net.cur[(c, q)]];
      }
    }
    assert CommitOk(net', q) by {
      forall tx, peers | Commit(tx) in net'.log[q] && Began(tx, peers) in net'.hist[q]
        ensures AllReady(net', tx, peers)
      {
        assert AllReady(net, tx, peers);
      }
    }
  }

  lemma AdvanceKeeps(net: Net, src: Sid, dst: Sid, to: nat)
    requires Inv(net) && src in net.srv && dst in net.srv && !Depends(net.srv[dst], src)
    requires net.cur[(src, dst)] <= to <= |net.log[src]|
    ensures Inv(Advance(net, src, dst, to))
  {
    var net' := Advance(net, src, dst, to);
    forall q | q in net'.srv ensures CrossOk(net', q) { AdvanceKeepsCross(net, src, dst, to, q); }
  }

  lemma ActionKeeps(net: Net, act: Action)
    requires Inv(net) && Enabled(net, act)
    ensures Inv(Do(net, act))
  {
    match act
    case Act(i, input) => HappenKeeps(net, i, input);
    case Lose(src, dst, upto) => AdvanceKeeps(net, src, dst, upto);
    case Link(a, b) =>
      AdvanceKeeps(net, a, b, |net.log[a]|);
      var net1 := Advance(net, a, b, |net.log[a]|);
      AdvanceKeeps(net1, b, a, |net.log[b]|);
      var net2 := Advance(net1, b, a, |net.log[b]|);
      HappenKeeps(net2, a, InLink(b));
      HappenKeeps(Happen(net2, a, InLink(b)), b, InLink(a));
  }

  lemma InitialInv(net: Net)
    requires Initial(net)
    ensures Inv(net)
  {
  }

  lemma {:induction false} RunKeeps(net: Net, acts: seq<Action>, last: Net)
    requires Inv(net) && Run(net, acts, last)
    ensures Inv(last)
    decreases |acts|
  {
    if acts != [] {
      ActionKeeps(net, acts[0]);
      RunKeeps(Do(net, acts[0]), acts[1..], last);
    }
  }
}
