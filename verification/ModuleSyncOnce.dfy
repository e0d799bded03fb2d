/** A transaction is asked of a server once, answered once, and entered on its
    record once, over every run. */
module ModuleSyncOnce {
  import opened Options
  import opened ModuleSync
  import opened ModuleSyncSteps
  import opened ModuleSyncNet
  import opened ModuleSyncCommit

  /** The entry a server makes when it is asked: it prepared, or refused. */
  predicate Handles(n: Note) { n.Prepared? || n.Refused? }

  predicate IsAnswer(m: Msg) { m.Ready? || m.Failed? }

  predicate Asks(m: Msg, tx: TxId) { m.Prepare? && m.tx == tx }

  // ----- one event -----

  /** An entry is about the PREPARE that was read, or about a transaction
      begun here, for which PREPARE goes out exactly if it was prepared. */
  ghost predicate AskedBy(s: Server, input: Input, e: Effect, n: Note)
    requires Handles(n)
  {
    || (input.InMsg? && input.msg == Prepare(n.tx, n.op, n.name))
    || (&& input.InBegin? && n.tx == NewTx(s) && e.server.serial == n.tx.serial
        && (n.Prepared? ==> Prepare(n.tx, n.op, n.name) in e.out)
        && (n.Refused? ==> forall m :: m in e.out ==> !m.Prepare?))
  }

  ghost predicate AnswerFacts(input: Input, e: Effect, m: Msg)
    requires IsAnswer(m)
  {
    && input.InMsg? && Asks(input.msg, m.tx) && e.out == [m] && |e.notes| == 1
    && (m.Ready? ==> e.notes[0].Prepared?) && (m.Failed? ==> e.notes[0].Refused?) && e.notes[0].tx == m.tx
  }

  ghost predicate OnceFacts(s: Server, input: Input, e: Effect) {
    && (forall n :: n in e.notes && Handles(n) ==> AskedBy(s, input, e, n))
    && (forall j, k :: 0 <= j < k < |e.notes| ==> !(Handles(e.notes[j]) && Handles(e.notes[k])))
    && (forall m :: m in e.out && IsAnswer(m) ==> AnswerFacts(input, e, m))
  }

  /** Nothing of the kind: what every event does that neither begins a
      transaction nor reads a PREPARE. */
  ghost predicate Plain(e: Effect) {
    && (forall n :: n in e.notes ==> !Handles(n))
    && (forall m :: m in e.out ==> !IsAnswer(m))
  }

  lemma SettleIsPlain(s: Server, commit: bool, why: Why, unloads: bool)
    requires s.part.Some?
    ensures Plain(SettlePart(s, commit, why, unloads))
  {
    SettleFacts(s, commit, why, unloads);
  }

  lemma FinishIsPlain(s: Server, commit: bool, unloads: bool)
    requires s.coord.Some?
    ensures Plain(FinishCoord(s, commit, unloads))
  {
    if s.part.Some? && s.part.value.tx == s.coord.value.tx { SettleIsPlain(s, commit, Told, unloads); }
  }

  lemma BeginOnce(s: Server, op: Op, name: string, peers: set<Sid>, att: Attempt)
    ensures OnceFacts(s, InBegin(op, name, peers, att), Begin(s, op, name, peers, att))
  {
    var made := PrepareHere(s.modules, op, name, att);
    if !s.Busy() && s.sync && made.ok {
      var tx := NewTx(s);
      var s2 := s.(serial := s.serial + 1, modules := made.modules,
                   coord := Some(Coordinating(tx, op, name, peers, false)),
                   part := Some(Participating(tx, op, name, made.undoLoad, s.self)));
      FinishIsPlain(s2, true, att.unloads);
      AskOnce(s, s2, InBegin(op, name, peers, att), s.modules, att.unloads);
    }
  }

  lemma AskOnce(s: Server, s2: Server, input: Input, prior: ModuleSet, unloads: bool)
    requires input.InBegin? && s2.coord.Some? && s2.coord.value.tx == NewTx(s) && !s2.coord.value.failed
    requires s2.serial == NewTx(s).serial && Plain(FinishCoord(s2, true, unloads))
    ensures OnceFacts(s, input, AskAll(s2, prior, unloads))
  {
    var c, e := s2.coord.value, AskAll(s2, prior, unloads);
    assert e.out[0] == Prepare(c.tx, c.op, c.name);
    assert e.server.serial == s2.serial;
  }

  lemma RecvOnce(s: Server, from: Sid, msg: Msg, att: Attempt, service: bool)
    ensures OnceFacts(s, InMsg(from, msg, att, service), Recv(s, from, msg, att, service))
  {
    match msg
    case Ready(_, tx) => AnswerOnce(s, from, true, tx, att.unloads);
    case Failed(_, tx) => AnswerOnce(s, from, false, tx, att.unloads);
    case Commit(tx) => if s.part.Some? && s.part.value.tx == tx { SettleIsPlain(s, true, Told, att.unloads); }
    case Abort(tx) => if s.part.Some? && s.part.value.tx == tx { SettleIsPlain(s, false, Told, att.unloads); }
    case _ =>
  }

  lemma AnswerOnce(s: Server, from: Sid, ok: bool, tx: TxId, unloads: bool)
    ensures Plain(RecvAnswer(s, from, ok, tx, unloads))
  {
    if s.coord.Some? && s.coord.value.tx == tx {
      var s1 := StopWaiting(if ok then s else FailCoord(s), from);
      if s1.coord.value.waiting == {} { FinishIsPlain(s1, !s1.coord.value.failed, unloads); }
    }
  }

  lemma GoneIsPlain(s: Server, x: Sid, at: nat, unloads: bool)
    ensures Plain(ServerGone(s, x, at, unloads))
  {
    if s.coord.Some? && x in s.coord.value.waiting {
      var s1 := StopWaiting(FailCoord(s), x);
      if s1.coord.value.waiting == {} { FinishIsPlain(s1, false, unloads); }
    }
  }

  lemma ReactOnce(s: Server, input: Input)
    ensures OnceFacts(s, input, React(s, input))
  {
    match input
    case InBegin(op, name, peers, att) => BeginOnce(s, op, name, peers, att);
    case InMsg(from, msg, att, service) => RecvOnce(s, from, msg, att, service);
    case InTimer(unloads) =>
      if s.coord.Some? { FinishIsPlain(FailCoord(s.(armed := false)), false, unloads); }
      else if s.part.Some? { SettleIsPlain(s.(armed := false), false, Deadline, unloads); }
    case InGone(x, at, unloads) => GoneIsPlain(s, x, at, unloads);
    case InRehash(modules) => OnlyAnnouncements(s.down, modules);
    case InUnlink(_) =>
    case InLink(_) =>
  }

  // ----- the invariant -----

  /** No transaction is asked about twice in one stream. */
  ghost predicate AsksOnce(log: seq<Msg>) {
    forall j, k :: 0 <= j < k < |log| && log[j].Prepare? && log[k].Prepare? ==> log[j].tx != log[k].tx
  }

  /** q has read this line of c's. */
  ghost predicate HeardAs(net: Net, c: Sid, q: Sid, m: Msg)
    requires WF(net)
  {
    c in net.srv && q in net.srv && exists k :: 0 <= k < net.cur[(c, q)] && net.log[c][k] == m
  }

  /** Where an entry on q's record comes from. */
  ghost predicate EntryHome(net: Net, q: Sid, n: Note)
    requires WF(net) && q in net.srv && Handles(n)
  {
    if n.tx.origin != q then HeardAs(net, n.tx.origin, q, Prepare(n.tx, n.op, n.name))
    else
      && n.tx.serial <= net.srv[q].serial
      && (n.Prepared? ==> Prepare(n.tx, n.op, n.name) in net.log[q])
      && (n.Refused? ==> forall m :: m in net.log[q] ==> !Asks(m, n.tx))
  }

  ghost predicate OneEntry(hist: seq<Note>) {
    forall j, k :: 0 <= j < k < |hist| && Handles(hist[j]) && Handles(hist[k]) ==> hist[j].tx != hist[k].tx
  }

  ghost predicate HasRefused(hist: seq<Note>, tx: TxId) {
    exists n :: n in hist && n.Refused? && n.tx == tx
  }

  /** An answer stands for the entry made with it. */
  ghost predicate AnswersOk(log: seq<Msg>, hist: seq<Note>) {
    forall m :: m in log ==> (m.Ready? ==> HasPrepared(hist, m.tx)) && (m.Failed? ==> HasRefused(hist, m.tx))
  }

  ghost predicate OnceOk(net: Net, q: Sid)
    requires WF(net) && q in net.srv
  {
    && AsksOnce(net.log[q]) && OneEntry(net.hist[q]) && AnswersOk(net.log[q], net.hist[q])
    && forall n :: n in net.hist[q] && Handles(n) ==> EntryHome(net, q, n)
  }

  ghost predicate OnceInv(net: Net) {
    WF(net) && forall q :: q in net.srv ==> OnceOk(net, q)
  }

  // ----- one server's event keeps it -----

  lemma KeepsAsks(s: Server, log: seq<Msg>, hist: seq<Note>, input: Input, e: Effect)
    requires Provenance(s, log, hist) && AsksOnce(log) && StepFacts(s, input, e)
    ensures AsksOnce(log + e.out)
  {
    var all := log + e.out;
    forall j, k | 0 <= j < k < |all| && all[j].Prepare? && all[k].Prepare? ensures all[j].tx != all[k].tx {
      if k >= |log| {
        assert all[k] == e.out[k - |log|] && MsgFacts(s, input, e, all[k]);
        assert k == |log|;
        assert all[j] in log && MsgHome(s, all[j]);
      }
    }
  }

  lemma KeepsAnswers(log: seq<Msg>, hist: seq<Note>, input: Input, e: Effect)
    requires AnswersOk(log, hist) && forall m :: m in e.out && IsAnswer(m) ==> AnswerFacts(input, e, m)
    ensures AnswersOk(log + e.out, hist + e.notes)
  {
    forall m | m in log + e.out
      ensures (m.Ready? ==> HasPrepared(hist + e.notes, m.tx)) && (m.Failed? ==> HasRefused(hist + e.notes, m.tx))
    {
      if m in log {
        if m.Ready? { PreparedStays(hist, e.notes, m.tx); }
        if m.Failed? {
          var n :| n in hist && n.Refused? && n.tx == m.tx;
          assert n in hist + e.notes;
        }
      } else if IsAnswer(m) {
        assert AnswerFacts(input, e, m);
        assert e.notes[0] in hist + e.notes;
        assert m.Ready? ==> IsPrepared(e.notes[0], m.tx);
      }
    }
  }

  lemma HeardStays(net: Net, i: Sid, input: Input, e: Effect, net': Net, c: Sid, q: Sid, m: Msg)
    requires Stepped(net, i, input, e, net') && HeardAs(net, c, q, m)
    ensures HeardAs(net', c, q, m)
  {
    var k :| 0 <= k < net.cur[(c, q)] && net.log[c][k] == m;
    assert net'.log[c][k] == m && k < net'.cur[(c, q)];
  }

  lemma HomeStays(net: Net, i: Sid, input: Input, e: Effect, net': Net, q: Sid, n: Note)
    requires Stepped(net, i, input, e, net') && q in net.srv && Handles(n) && EntryHome(net, q, n)
    ensures EntryHome(net', q, n)
  {
    if n.tx.origin != q {
      HeardStays(net, i, input, e, net', n.tx.origin, q, Prepare(n.tx, n.op, n.name));
    } else if q == i && n.Refused? {
      forall m | m in net'.log[q] ensures !Asks(m, n.tx) {
        if m in e.out && m.Prepare? { assert MsgFacts(net.srv[i], input, e, m); }
      }
    }
  }

  lemma NewHome(net: Net, i: Sid, input: Input, e: Effect, net': Net, n: Note)
    requires Stepped(net, i, input, e, net') && InputOk(net.srv[i], input)
    requires Handles(n) && n in e.notes && AskedBy(net.srv[i], input, e, n) && net.srv[i].self == i
    requires Provenance(net.srv[i], net.log[i], net.hist[i])
    ensures EntryHome(net', i, n)
  {
    if input.InMsg? {
      var c, k := input.from, net.cur[(input.from, i)];
      assert net.log[c][k] == input.msg == net'.log[c][k];
      assert k < net'.cur[(c, i)];
    } else {
      forall m | m in net'.log[i] && n.Refused? ensures !Asks(m, n.tx) {
        if m in net.log[i] && m.Prepare? { assert MsgHome(net.srv[i], m); }
      }
    }
  }

  /** What is asked now was not entered before. */
  lemma NotYet(net: Net, i: Sid, input: Input, e: Effect, net': Net, n: Note, was: Note)
    requires Stepped(net, i, input, e, net') && InputOk(net.srv[i], input) && net.srv[i].self == i
    requires Handles(n) && n in e.notes && AskedBy(net.srv[i], input, e, n)
    requires Handles(was) && EntryHome(net, i, was)
    requires forall c :: c in net.srv ==> AsksOnce(net.log[c])
    ensures was.tx != n.tx
  {
    assert input.InMsg? ==> net.log[input.from][net.cur[(input.from, i)]] == input.msg;
  }

  lemma EntriesGrow(h: seq<Note>, more: seq<Note>)
    requires OneEntry(h)
    requires forall k, n ::
        0 <= k < |more| && Handles(more[k]) && n in h + more[..k] && Handles(n) ==> n.tx != more[k].tx
    ensures OneEntry(h + more)
  {
    var all := h + more;
    forall j, k | 0 <= j < k < |all| && Handles(all[j]) && Handles(all[k]) ensures all[j].tx != all[k].tx {
      if k >= |h| {
        assert all[k] == more[k - |h|] && all[j] == (h + more[..k - |h|])[j];
      }
    }
  }

  lemma KeepsEntries(net: Net, i: Sid, input: Input, e: Effect, net': Net)
    requires Stepped(net, i, input, e, net') && InputOk(net.srv[i], input) && OnceInv(net)
    requires OnceFacts(net.srv[i], input, e)
    ensures OneEntry(net'.hist[i])
  {
    var h := net.hist[i];
    assert OnceOk(net, i);
    forall k, n | 0 <= k < |e.notes| && Handles(e.notes[k]) && n in h + e.notes[..k] && Handles(n)
      ensures n.tx != e.notes[k].tx
    {
      assert AskedBy(net.srv[i], input, e, e.notes[k]) && n in h;
      forall c | c in net.srv ensures AsksOnce(net.log[c]) { assert OnceOk(net, c); }
      NotYet(net, i, input, e, net', e.notes[k], n);
    }
    EntriesGrow(h, e.notes);
  }

  lemma KeepsOnce(net: Net, i: Sid, input: Input, e: Effect, net': Net, q: Sid)
    requires Stepped(net, i, input, e, net') && InputOk(net.srv[i], input) && OnceInv(net) && q in net.srv
    requires OnceFacts(net.srv[i], input, e) && Provenance(net.srv[i], net.log[i], net.hist[i])
    ensures OnceOk(net', q)
  {
    assert OnceOk(net, q);
    if q == i {
      KeepsAsks(net.srv[i], net.log[i], net.hist[i], input, e);
      KeepsAnswers(net.log[i], net.hist[i], input, e);
      KeepsEntries(net, i, input, e, net');
    }
    forall n | n in net'.hist[q] && Handles(n) ensures EntryHome(net', q, n) {
      if n in net.hist[q] { HomeStays(net, i, input, e, net', q, n); }
      else { NewHome(net, i, input, e, net', n); }
    }
  }

  lemma HappenOnce(net: Net, i: Sid, input: Input)
    requires Inv(net) && OnceInv(net) && i in net.srv && Fits(net, i, input)
    ensures OnceInv(Happen(net, i, input))
  {
    InputFits(net, i, input);
    ReactFacts(net.srv[i], input);
    ReactOnce(net.srv[i], input);
    var e, net' := React(net.srv[i], input), Happen(net, i, input);
    ActShape(net, i, input, e, net');
    forall q | q in net'.srv ensures OnceOk(net', q) { KeepsOnce(net, i, input, e, net', q); }
  }

  lemma AdvanceOnce(net: Net, src: Sid, dst: Sid, to: nat)
    requires OnceInv(net) && src in net.srv && dst in net.srv && net.cur[(src, dst)] <= to <= |net.log[src]|
    ensures OnceInv(Advance(net, src, dst, to))
  {
    var net' := Advance(net, src, dst, to);
    forall q | q in net'.srv ensures OnceOk(net', q) {
      assert OnceOk(net, q);
      forall n | n in net'.hist[q] && Handles(n) ensures EntryHome(net', q, n) {
        assert EntryHome(net, q, n);
      }
    }
  }

  lemma ActionOnce(net: Net, act: Action)
    requires Inv(net) && OnceInv(net) && Enabled(net, act)
    ensures OnceInv(Do(net, act))
  {
    match act
    case Act(i, input) => HappenOnce(net, i, input);
    case Lose(src, dst, upto) => AdvanceOnce(net, src, dst, upto);
    case Link(a, b) =>
      var net1 := Advance(net, a, b, |net.log[a]|);
      AdvanceOnce(net, a, b, |net.log[a]|);
      AdvanceKeeps(net, a, b, |net.log[a]|);
      var net2 := Advance(net1, b, a, |net.log[b]|);
      AdvanceOnce(net1, b, a, |net.log[b]|);
      AdvanceKeeps(net1, b, a, |net.log[b]|);
      HappenOnce(net2, a, InLink(b));
      HappenKeeps(net2, a, InLink(b));
      HappenOnce(Happen(net2, a, InLink(b)), b, InLink(a));
  }

  lemma {:induction false} RunOnce(net: Net, acts: seq<Action>, last: Net)
    requires Inv(net) && OnceInv(net) && Run(net, acts, last)
    ensures OnceInv(last)
    decreases |acts|
  {
    if acts != [] {
      ActionKeeps(net, acts[0]);
      ActionOnce(net, acts[0]);
      RunOnce(Do(net, acts[0]), acts[1..], last);
    }
  }

  lemma InitialOnce(net: Net)
    requires Initial(net)
    ensures OnceInv(net)
  {
  }
}
