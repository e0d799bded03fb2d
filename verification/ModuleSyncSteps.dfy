/** What one event does to one server, summed up as facts the network proofs
    use instead of the handlers' bodies. */
module ModuleSyncSteps {
  import opened Options
  import opened ModuleSync

  predicate Outcome(m: Msg, tx: TxId) { m == Commit(tx) || m == Abort(tx) }

  /** A coordinator always takes part in its own transaction and always waits
      for somebody; a server that waits always has its deadline armed. */
  predicate LocalOk(s: Server) {
    && (s.armed <==> s.Busy())
    && (s.coord.Some? ==>
          && s.coord.value.waiting != {}
          && s.self !in s.coord.value.waiting
          && s.coord.value.tx == TxId(s.self, s.serial)
          && s.part.Some?
          && s.part.value.tx == s.coord.value.tx)
    && (s.part.Some? ==>
          && s.part.value.tx.origin == s.part.value.coordinator
          && (s.part.value.coordinator == s.self ==> s.coord.Some?))
  }

  /** What the network guarantees about an event. */
  predicate InputOk(s: Server, input: Input) {
    match input
    case InBegin(_, _, peers, _) => s.self !in peers
    case InMsg(from, msg, _, _) => from != s.self
        && (msg.Prepare? || msg.Commit? || msg.Abort? ==> msg.tx.origin == from)
    case InTimer(_) => s.armed
    case InGone(x, _, _) => x != s.self
    case _ => true
  }

  function NewTx(s: Server): TxId { TxId(s.self, s.serial + 1) }

  predicate IsPrepared(n: Note, tx: TxId) { n.Prepared? && n.tx == tx }

  ghost predicate HasPrepared(notes: seq<Note>, tx: TxId) {
    exists n :: n in notes && IsPrepared(n, tx)
  }

  predicate Answers(input: Input, s: Server, tx: TxId, x: Sid) {
    input.InMsg? && input.from == x && input.msg == Ready(s.self, tx)
  }

  /** The transaction every peer answered READY to in this very event. */
  ghost predicate Unanimous(s: Server, input: Input, tx: TxId) {
    || (input.InBegin? && tx == NewTx(s) && input.peers == {})
    || (&& s.coord.Some? && s.coord.value.tx == tx && !s.coord.value.failed
        && input.InMsg? && Answers(input, s, tx, input.from)
        && s.coord.value.waiting <= {input.from})
  }

  ghost predicate MsgFacts(s: Server, input: Input, e: Effect, m: Msg) {
    match m
    case Announce(_, digest) => digest == e.server.modules
    case EndOfBurst(_) => input.InLink?
    case Prepare(tx, _, _) => input.InBegin? && tx == NewTx(s) && e.server.serial == tx.serial
    case Ready(to, tx) =>
      && input.InMsg? && input.msg.Prepare? && input.msg.tx == tx && to == input.from
      && HasPrepared(e.notes, tx)
    case Failed(to, tx) =>
      && input.InMsg? && input.msg.Prepare? && input.msg.tx == tx && to == input.from
    case Commit(tx) =>
      && Unanimous(s, input, tx) && e.server.coord.None?
      && (input.InBegin? ==> Began(tx, {}) in e.notes && HasPrepared(e.notes, tx) && e.server.serial == tx.serial)
      && Abort(tx) !in e.out
    case Abort(tx) =>
      && s.coord.Some? && s.coord.value.tx == tx && e.server.coord.None?
      && Commit(tx) !in e.out
  }

  ghost predicate NoteFacts(s: Server, input: Input, e: Effect, n: Note) {
    match n
    case Began(tx, peers) =>
      input.InBegin? && tx == NewTx(s) && peers == input.peers && e.server.serial == tx.serial
    case Prepared(tx, _, _, _, _) =>
      || (input.InBegin? && tx == NewTx(s))
      || (input.InMsg? && input.msg.Prepare? && input.msg.tx == tx)
    case Settled(tx, true, why, _, _) =>
      why == Told && ((Commit(tx) in e.out && tx.origin == s.self) || (input.InMsg? && input.msg == Commit(tx)))
    case Settled(tx, false, Told, _, _) =>
      (Abort(tx) in e.out && tx.origin == s.self) || (input.InMsg? && input.msg == Abort(tx))
    case Settled(tx, false, Deadline, _, _) =>
      input.InTimer? && s.part.Some? && s.part.value.tx == tx && tx.origin != s.self
    case Settled(tx, false, CoordinatorLost(at), _, _) =>
      && input.InGone? && at == input.at && s.part.Some?
      && s.part.value.tx == tx && s.part.value.coordinator == input.x
    case _ => true
  }

  ghost predicate CoordFacts(s: Server, input: Input, e: Effect) {
    e.server.coord.Some? ==>
      var k' := e.server.coord.value;
      || (&& s.coord.Some? && s.coord.value.tx == k'.tx && e.server.serial == s.serial
          && (s.coord.value.failed ==> k'.failed)
          && (forall x :: x in s.coord.value.waiting && x !in k'.waiting ==>
                k'.failed || Answers(input, s, k'.tx, x)))
      || (&& input.InBegin? && k'.tx == NewTx(s) && k'.waiting == input.peers
          && Began(k'.tx, input.peers) in e.notes && HasPrepared(e.notes, k'.tx))
  }

  ghost predicate PartFacts(s: Server, input: Input, e: Effect) {
    e.server.part.Some? ==>
      || (e.server.part == s.part
          && (input.InMsg? ==> !Outcome(input.msg, s.part.value.tx))
          && (input.InGone? ==> input.x != s.part.value.coordinator))
      || (input.InBegin? && e.server.part.value.coordinator == s.self)
      || (&& s.part.None? && input.InMsg? && input.msg.Prepare?
          && e.server.part.value.tx == input.msg.tx && e.server.part.value.coordinator == input.from)
  }

  /** In one burst of lines, a PREPARE only ever comes first. */
  ghost predicate OrderFacts(e: Effect) {
    forall k :: 0 < k < |e.out| ==> !e.out[k].Prepare?
  }

  ghost predicate StepFacts(s: Server, input: Input, e: Effect) {
    && e.server.self == s.self && e.server.sync == s.sync && e.server.serial >= s.serial
    && LocalOk(e.server)
    && (forall m :: m in e.out ==> MsgFacts(s, input, e, m))
    && (forall n :: n in e.notes ==> NoteFacts(s, input, e, n))
    && CoordFacts(s, input, e) && PartFacts(s, input, e) && OrderFacts(e)
  }

  lemma {:induction false} OnlyAnnouncements(links: seq<Sid>, modules: ModuleSet)
    ensures |AnnounceAll(links, modules)| == |links|
    ensures forall i :: 0 <= i < |links| ==> AnnounceAll(links, modules)[i] == Announce(links[i], modules)
  {
    if links != [] { OnlyAnnouncements(links[1..], modules); }
  }

  lemma SettleFacts(s: Server, commit: bool, why: Why, unloads: bool)
    requires s.part.Some?
    ensures var e := SettlePart(s, commit, why, unloads);
            && e.notes == [Settled(s.part.value.tx, commit, why, e.server.modules, unloads)]
            && (forall k :: 0 <= k < |e.out| ==> e.out[k].Announce? && e.out[k].digest == e.server.modules)
            && e.server.part.None?
  {
    var e := SettlePart(s, commit, why, unloads);
    OnlyAnnouncements(e.server.down, e.server.modules);
  }

  lemma FinishFacts(s: Server, commit: bool, unloads: bool)
    requires s.coord.Some? && s.part.Some? && s.part.value.tx == s.coord.value.tx
    ensures var e := FinishCoord(s, commit, unloads);
            var tx := s.coord.value.tx;
            && e.notes == [Settled(tx, commit, Told, e.server.modules, unloads)]
            && |e.out| > 0 && e.out[0] == (if commit then Commit(tx) else Abort(tx))
            && (forall k :: 0 < k < |e.out| ==> e.out[k].Announce? && e.out[k].digest == e.server.modules)
            && !e.server.Busy() && !e.server.armed
  {
    SettleFacts(s, commit, Told, unloads);
    var e := FinishCoord(s, commit, unloads);
  }

  lemma BeginStep(s: Server, input: Input)
    requires LocalOk(s) && InputOk(s, input) && input.InBegin?
    ensures StepFacts(s, input, React(s, input))
  {
    var e := React(s, input);
    if !s.Busy() && s.sync {
      var prep := PrepareHere(s.modules, input.op, input.name, input.att);
      if prep.ok {
        var tx := NewTx(s);
        assert e.notes[0] == Began(tx, input.peers);
        assert IsPrepared(e.notes[1], tx);
        if input.peers == {} {
          var s2 := s.(serial := s.serial + 1, modules := prep.modules,
                       coord := Some(Coordinating(tx, input.op, input.name, input.peers, false)),
                       part := Some(Participating(tx, input.op, input.name, prep.undoLoad, s.self)));
          FinishFacts(s2, true, input.att.unloads);
          var f := FinishCoord(s2, true, input.att.unloads);
          assert e.out == [Prepare(tx, input.op, input.name)] + f.out;
          assert f.out[0] in e.out;
        }
      }
    }
  }

  /** Whatever made the coordinator finish, the summary follows from what
      finishing does. */
  lemma FinishedStep(s: Server, input: Input, e: Effect, commit: bool, unloads: bool)
    requires LocalOk(s) && s.coord.Some? && !input.InBegin?
    requires commit ==> Unanimous(s, input, s.coord.value.tx)
    requires e.server.self == s.self && e.server.sync == s.sync && e.server.serial == s.serial
    requires !e.server.Busy() && !e.server.armed
    requires var tx := s.coord.value.tx;
             && e.notes == [Settled(tx, commit, Told, e.server.modules, unloads)]
             && |e.out| > 0 && e.out[0] == (if commit then Commit(tx) else Abort(tx))
    requires forall k :: 0 < k < |e.out| ==> e.out[k].Announce? && e.out[k].digest == e.server.modules
    ensures StepFacts(s, input, e)
  {
  }

  lemma TimerStep(s: Server, input: Input)
    requires LocalOk(s) && InputOk(s, input) && input.InTimer?
    ensures StepFacts(s, input, React(s, input))
  {
    if s.coord.Some? {
      FinishFacts(FailCoord(s.(armed := false)), false, input.unloads);
      FinishedStep(s, input, React(s, input), false, input.unloads);
    } else {
      SettleFacts(s.(armed := false), false, Deadline, input.unloads);
    }
  }

  lemma GoneStep(s: Server, input: Input)
    requires LocalOk(s) && InputOk(s, input) && input.InGone?
    ensures StepFacts(s, input, React(s, input))
  {
    if s.coord.Some? && input.x in s.coord.value.waiting {
      var s1 := StopWaiting(FailCoord(s), input.x);
      if s1.coord.value.waiting == {} {
        FinishFacts(s1, false, input.unloads);
        var e := FinishCoord(s1, false, input.unloads);
        assert e.out + [] == e.out && e.notes + [] == e.notes;
        FinishedStep(s, input, e, false, input.unloads);
      }
    }
  }

  lemma StillWaiting(s: Server, input: Input, e: Effect)
    requires LocalOk(s) && s.coord.Some? && input.InMsg? && e.out == [] && e.notes == []
    requires input.msg.Ready? || input.msg.Failed?
    requires e.server.coord.Some? && e.server == s.(coord := e.server.coord, armed := true)
    requires var k, k' := s.coord.value, e.server.coord.value;
             && k'.tx == k.tx && k'.waiting != {} && k'.waiting <= k.waiting && (k.failed ==> k'.failed)
             && forall x :: x in k.waiting && x !in k'.waiting ==> k'.failed || Answers(input, s, k.tx, x)
    ensures StepFacts(s, input, e)
  {
  }

  lemma AnswerStep(s: Server, input: Input)
    requires LocalOk(s) && InputOk(s, input) && input.InMsg? && (input.msg.Ready? || input.msg.Failed?)
    ensures StepFacts(s, input, React(s, input))
  {
    if input.msg.to == s.self && s.coord.Some? && s.coord.value.tx == input.msg.tx {
      var s1 := StopWaiting(if input.msg.Ready? then s else FailCoord(s), input.from);
      if s1.coord.value.waiting == {} {
        FinishFacts(s1, !s1.coord.value.failed, input.att.unloads);
        assert s.coord.value.waiting <= {input.from} by {
          forall x | x in s.coord.value.waiting ensures x == input.from { assert x !in s1.coord.value.waiting; }
        }
        FinishedStep(s, input, React(s, input), !s1.coord.value.failed, input.att.unloads);
      } else {
        StillWaiting(s, input, React(s, input));
      }
    }
  }

  lemma OtherMsgStep(s: Server, input: Input)
    requires LocalOk(s) && InputOk(s, input) && input.InMsg? && !input.msg.Ready? && !input.msg.Failed?
    ensures StepFacts(s, input, React(s, input))
  {
    if input.msg.Commit? || input.msg.Abort? {
      if s.part.Some? && s.part.value.tx == input.msg.tx {
        SettleFacts(s, input.msg.Commit?, Told, input.att.unloads);
      }
    } else if input.msg.Prepare? {
      var e := React(s, input);
      if |e.notes| > 0 { assert e.notes[0] in e.notes; }
    }
  }

  /** The summary holds of every event. */
  lemma ReactFacts(s: Server, input: Input)
    requires LocalOk(s) && InputOk(s, input)
    ensures StepFacts(s, input, React(s, input))
  {
    match input
    case InBegin(_, _, _, _) => BeginStep(s, input);
    case InMsg(_, msg, _, _) =>
      if msg.Ready? || msg.Failed? { AnswerStep(s, input); } else { OtherMsgStep(s, input); }
    case InTimer(_) => TimerStep(s, input);
    case InGone(_, _, _) => GoneStep(s, input);
    case InRehash(modules) => OnlyAnnouncements(s.down, modules);
    case InUnlink(_) =>
    case InLink(_) =>
  }
}
