/** What a transaction leaves of a server's module set, over every run. */
module ModuleSyncEffects {
  import opened Options
  import opened ModuleSync
  import opened ModuleSyncNet

  /** Where a server's record leaves it: nothing prepared, or prepared by the
      PREPARED note `prep`, `touched` once a rehash has replaced the set since. */
  datatype Since = Idle | Open(prep: Note, touched: bool)

  function After(since: Since, n: Note): Since {
    match n
    case Prepared(_, _, _, _, _) => Open(n, false)
    case Settled(_, _, _, _, _) => Idle
    case Rehashed => if since.Open? then since.(touched := true) else since
    case _ => since
  }

  function SinceOf(h: seq<Note>): Since {
    if h == [] then Idle else After(SinceOf(h[..|h| - 1]), h[|h| - 1])
  }

  /** The set a settled transaction must leave, in terms of the set from
      before it was prepared.  `unloads` says whether the loader let the
      module go when it was asked to. */
  function Left(prep: Note, committed: bool, unloads: bool): ModuleSet
    requires prep.Prepared?
  {
    match prep.op
    case Load => if committed || !unloads then prep.after else prep.prior
    case Unload => if committed && unloads then prep.prior - {prep.name} else prep.prior
    case Reload => if committed || !unloads then prep.after else prep.prior - {prep.name}
  }

  /** What preparing does: a load and a reload put the module in, an unload
      does nothing yet. */
  ghost predicate Prepares(prep: Note)
    requires prep.Prepared?
  {
    match prep.op
    case Load =>
      && prep.name !in prep.prior && prep.name in prep.after
      && prep.after == prep.prior[prep.name := prep.after[prep.name]]
    case Unload => prep.name in prep.prior && prep.after == prep.prior
    case Reload =>
      && prep.name in prep.prior && prep.name in prep.after
      && prep.after == prep.prior[prep.name := prep.after[prep.name]]
  }

  /** What refusing leaves: a reload that got as far as taking the module out
      leaves it out, everything else leaves the set alone. */
  ghost predicate Refuses(n: Note)
    requires n.Refused?
  {
    n.after == if n.op == Reload && n.free && n.unloads then n.prior - {n.name} else n.prior
  }

  /** One more entry on the record is the right one. */
  ghost predicate EntryOk(since: Since, n: Note) {
    match n
    case Prepared(_, _, _, _, _) => since.Idle? && Prepares(n)
    case Refused(_, _, _, _, _, _, _) => Refuses(n) && (since.Open? ==> n.after == n.prior)
    case Settled(tx, committed, _, result, unloads) =>
      && since.Open? && since.prep.Prepared? && since.prep.tx == tx
      && (!since.touched ==> result == Left(since.prep, committed, unloads))
    case _ => true
  }

  ghost predicate RecordOk(h: seq<Note>) {
    h == [] || (RecordOk(h[..|h| - 1]) && EntryOk(SinceOf(h[..|h| - 1]), h[|h| - 1]))
  }

  /** The server is where its record says. */
  ghost predicate Agrees(s: Server, since: Since) {
    && (s.part.Some? <==> since.Open?)
    && (s.part.Some? ==>
          && var prep, part := since.prep, s.part.value;
          && prep.Prepared? && Prepares(prep)
          && part.tx == prep.tx && part.op == prep.op && part.name == prep.name
          && (part.undoLoad <==> part.op != Unload)
          && (!since.touched ==> s.modules == prep.after))
  }

  ghost predicate EffectInv(s: Server, h: seq<Note>) {
    RecordOk(h) && Agrees(s, SinceOf(h))
  }

  lemma Snoc(h: seq<Note>, n: Note)
    ensures SinceOf(h + [n]) == After(SinceOf(h), n)
    ensures RecordOk(h + [n]) <==> RecordOk(h) && EntryOk(SinceOf(h), n)
  {
    assert (h + [n])[..|h|] == h;
  }

  lemma PrepareIsRight(s: Server, op: Op, name: string, att: Attempt, tx: TxId)
    requires PrepareHere(s.modules, op, name, att).ok
    ensures Prepares(Prepared(tx, op, name, s.modules, PrepareHere(s.modules, op, name, att).modules))
    ensures PrepareHere(s.modules, op, name, att).undoLoad <==> op != Unload
  {
    if op != Unload {
      assert PrepareHere(s.modules, op, name, att).modules == s.modules[name := att.loads.value];
    }
  }

  lemma SettleIsRight(s: Server, h: seq<Note>, commit: bool, why: Why, unloads: bool)
    requires EffectInv(s, h) && s.part.Some?
    ensures EffectInv(SettlePart(s, commit, why, unloads).server, h + SettlePart(s, commit, why, unloads).notes)
  {
    var e := SettlePart(s, commit, why, unloads);
    Snoc(h, e.notes[0]);
    var prep := SinceOf(h).prep;
    if !SinceOf(h).touched {
      assert (prep.after - {prep.name}) == (prep.prior - {prep.name});
      if prep.op == Load { assert prep.prior - {prep.name} == prep.prior; }
    }
  }

  lemma FinishIsRight(s: Server, h: seq<Note>, commit: bool, unloads: bool)
    requires EffectInv(s, h) && s.coord.Some?
    ensures var e := FinishCoord(s, commit, unloads); EffectInv(e.server, h + e.notes)
  {
    if s.part.Some? && s.part.value.tx == s.coord.value.tx {
      SettleIsRight(s, h, commit, Told, unloads);
    } else {
      assert h + [] == h;
    }
  }

  /** The record of a transaction begun, and the server that has prepared it. */
  lemma BegunIsRight(s: Server, h: seq<Note>, began: Note, prep: Note, s2: Server)
    requires EffectInv(s, h) && s.part.None? && began.Began? && prep.Prepared? && Prepares(prep)
    requires s2.part.Some? && s2.modules == prep.after
    requires var part := s2.part.value;
             part.tx == prep.tx && part.op == prep.op && part.name == prep.name
             && (part.undoLoad <==> part.op != Unload)
    ensures EffectInv(s2, h + [began, prep])
  {
    Snoc(h, began);
    Snoc(h + [began], prep);
    assert h + [began] + [prep] == h + [began, prep];
  }

  /** Asking the others, and settling at once if there are none. */
  lemma AskIsRight(s: Server, h: seq<Note>, s2: Server, prep: Note, unloads: bool)
    requires EffectInv(s, h) && s.part.None? && prep.Prepared? && Prepares(prep)
    requires s2.coord.Some?
    requires s2.coord.value == Coordinating(prep.tx, prep.op, prep.name, s2.coord.value.waiting, false)
    requires s2.part.Some? && s2.modules == prep.after
    requires var part := s2.part.value;
             part.tx == prep.tx && part.op == prep.op && part.name == prep.name
             && (part.undoLoad <==> part.op != Unload)
    ensures var e := AskAll(s2, prep.prior, unloads); EffectInv(e.server, h + e.notes)
  {
    var began, e := Began(prep.tx, s2.coord.value.waiting), AskAll(s2, prep.prior, unloads);
    BegunIsRight(s, h, began, prep, s2);
    if s2.coord.value.waiting == {} {
      var h2 := h + [began, prep];
      FinishIsRight(s2, h2, true, unloads);
      assert h2 + FinishCoord(s2, true, unloads).notes == h + e.notes;
    }
  }

  lemma BeginIsRight(s: Server, h: seq<Note>, op: Op, name: string, peers: set<Sid>, att: Attempt)
    requires EffectInv(s, h)
    ensures var e := Begin(s, op, name, peers, att); EffectInv(e.server, h + e.notes)
  {
    var e := Begin(s, op, name, peers, att);
    var made := PrepareHere(s.modules, op, name, att);
    var tx := TxId(s.self, s.serial + 1);
    if s.Busy() || !s.sync {
      assert h + e.notes == h;
    } else if !made.ok {
      Snoc(h, e.notes[0]);
    } else {
      PrepareIsRight(s, op, name, att, tx);
      var s2 := s.(serial := s.serial + 1, modules := made.modules,
                   coord := Some(Coordinating(tx, op, name, peers, false)),
                   part := Some(Participating(tx, op, name, made.undoLoad, s.self)));
      AskIsRight(s, h, s2, Prepared(tx, op, name, s.modules, made.modules), att.unloads);
    }
  }

  lemma PreparedIsRight(s: Server, h: seq<Note>, from: Sid, tx: TxId, op: Op, name: string, att: Attempt)
    requires EffectInv(s, h)
    ensures var e := RecvPrepare(s, from, tx, op, name, att); EffectInv(e.server, h + e.notes)
  {
    var e := RecvPrepare(s, from, tx, op, name, att);
    Snoc(h, e.notes[0]);
    if e.server.part != s.part { PrepareIsRight(s, op, name, att, tx); }
  }

  lemma RecvIsRight(s: Server, h: seq<Note>, from: Sid, msg: Msg, att: Attempt, service: bool)
    requires EffectInv(s, h)
    ensures var e := Recv(s, from, msg, att, service); EffectInv(e.server, h + e.notes)
  {
    var e := Recv(s, from, msg, att, service);
    if e.notes == [] { assert h + e.notes == h; }
    match msg
    case Prepare(tx, op, name) =>
      PreparedIsRight(s, h, from, tx, op, name, att);
    case Commit(tx) =>
      if s.part.Some? && s.part.value.tx == tx { SettleIsRight(s, h, true, Told, att.unloads); }
    case Abort(tx) =>
      if s.part.Some? && s.part.value.tx == tx { SettleIsRight(s, h, false, Told, att.unloads); }
    case Ready(_, tx) => AnswerIsRight(s, h, from, true, tx, att.unloads);
    case Failed(_, tx) => AnswerIsRight(s, h, from, false, tx, att.unloads);
    case EndOfBurst(_) => if e.notes != [] { Snoc(h, e.notes[0]); }
    case _ =>
  }

  lemma AnswerIsRight(s: Server, h: seq<Note>, from: Sid, ok: bool, tx: TxId, unloads: bool)
    requires EffectInv(s, h)
    ensures var e := RecvAnswer(s, from, ok, tx, unloads); EffectInv(e.server, h + e.notes)
  {
    assert h + [] == h;
    if s.coord.Some? && s.coord.value.tx == tx {
      var s1 := StopWaiting(if ok then s else FailCoord(s), from);
      if s1.coord.value.waiting == {} { FinishIsRight(s1, h, !s1.coord.value.failed, unloads); }
    }
  }

  lemma LossIsRight(s: Server, h: seq<Note>, x: Sid, at: nat, unloads: bool)
    requires EffectInv(s, h)
    ensures var e := LoseCoordinator(s, x, at, unloads); EffectInv(e.server, h + e.notes)
  {
    var e := LoseCoordinator(s, x, at, unloads);
    if s.part.Some? && s.part.value.coordinator == x {
      SettleIsRight(s, h, false, Told, unloads);
      Snoc(h, e.notes[0]);
      Snoc(h, SettlePart(s, false, Told, unloads).notes[0]);
    } else {
      assert h + e.notes == h;
    }
  }

  lemma GoneIsRight(s: Server, h: seq<Note>, x: Sid, at: nat, unloads: bool)
    requires EffectInv(s, h)
    ensures var e := ServerGone(s, x, at, unloads); EffectInv(e.server, h + e.notes)
  {
    var first := Nothing(s);
    assert h + [] == h;
    if s.coord.Some? && x in s.coord.value.waiting {
      var s1 := StopWaiting(FailCoord(s), x);
      if s1.coord.value.waiting == {} {
        FinishIsRight(s1, h, false, unloads);
        first := FinishCoord(s1, false, unloads);
      } else {
        first := Nothing(s1);
      }
    }
    LossIsRight(first.server, h + first.notes, x, at, unloads);
    var second := LoseCoordinator(first.server, x, at, unloads);
    assert h + first.notes + second.notes == h + (first.notes + second.notes);
  }

  lemma ReactIsRight(s: Server, h: seq<Note>, input: Input)
    requires EffectInv(s, h)
    ensures var e := React(s, input); EffectInv(e.server, h + e.notes)
  {
    var e := React(s, input);
    assert h + [] == h;
    match input
    case InBegin(op, name, peers, att) => BeginIsRight(s, h, op, name, peers, att);
    case InMsg(from, msg, att, service) => RecvIsRight(s, h, from, msg, att, service);
    case InTimer(unloads) =>
      if s.coord.Some? { FinishIsRight(FailCoord(s.(armed := false)), h, false, unloads); }
      else if s.part.Some? { SettleIsRight(s.(armed := false), h, false, Deadline, unloads); }
    case InGone(x, at, unloads) => GoneIsRight(s, h, x, at, unloads);
    case InRehash(_) => Snoc(h, Rehashed);
    case InUnlink(_) =>
    case InLink(x) => Snoc(h, LinkUp(x));
  }

  ghost predicate Records(net: Net) {
    WF(net) && forall i :: i in net.srv ==> EffectInv(net.srv[i], net.hist[i])
  }
}
