/** Peers that never say what they run: refused when their burst ends, unless
    the end of the burst is read at a moment when nothing can be held against
    them. */
module ModuleSyncBursts {
  import opened Options
  import opened ModuleSync
  import opened ModuleSyncSteps
  import opened ModuleSyncNet
  import opened ModuleSyncCommit
  import opened ModuleSyncLinks
  import opened ModuleSyncTheorems

  ghost predicate EndsIn(log: seq<Msg>, from: nat, a: Sid) {
    exists k :: from <= k < |log| && log[k] == EndOfBurst(a)
  }

  ghost predicate EndsTwice(log: seq<Msg>, from: nat, a: Sid) {
    exists j, k :: from <= j < k < |log| && log[j] == EndOfBurst(a) && log[k] == EndOfBurst(a)
  }

  /** a has yet to read that b's burst is over. */
  ghost predicate BurstUnread(net: Net, b: Sid, a: Sid)
    requires WF(net) && a in net.srv && b in net.srv
  {
    EndsIn(net.log[b], net.cur[(b, a)], a)
  }

  /** Since the link came up, b's burst ended uncompared and was let pass: b is
      a service, or a transaction was under way just then. */
  ghost predicate ExcusedSince(h: seq<Note>, b: Sid) {
    exists k :: 0 <= k < |h| && h[k].Excused? && h[k].peer == b && forall m :: k < m < |h| ==> h[m] != LinkUp(b)
  }

  /** Every linked peer was compared, or is still bursting, or was excused. */
  ghost predicate BurstOk(net: Net, a: Sid, b: Sid)
    requires WF(net) && a in net.srv && b in net.srv
  {
    && (Linked(net, a, b) && net.srv[a].sync ==>
          b in net.srv[a].checked || BurstUnread(net, b, a) || ExcusedSince(net.hist[a], b))
    && (ExcusedSince(net.hist[a], b) ==> !BurstUnread(net, b, a))
    && !EndsTwice(net.log[b], net.cur[(b, a)], a)
  }

  /** Only who keeps the rule announces, and only who announced was compared. */
  ghost predicate SpokenOk(net: Net, a: Sid)
    requires WF(net) && a in net.srv
  {
    && (forall m :: m in net.log[a] && m.Announce? ==> net.srv[a].sync)
    && (forall b :: b in net.srv[a].checked ==> b in net.srv && net.srv[b].sync)
  }

  ghost predicate BurstInv(net: Net) {
    && WF(net)
    && (forall a :: a in net.srv ==> SpokenOk(net, a))
    && (forall a, b :: a in net.srv && b in net.srv && a != b ==> BurstOk(net, a, b))
  }

  // ----- one event -----

  predicate About(n: Note) { n.LinkUp? || n.Excused? }

  /** The event has nothing to do with links, but for what it announces. */
  ghost predicate Inert(s: Server, e: Effect) {
    && e.server.checked == s.checked && e.server.sync == s.sync
    && (forall n :: n in e.notes ==> !About(n))
    && (!s.sync ==> forall m :: m in e.out ==> !m.Announce?)
  }

  lemma SettleInert(s: Server, commit: bool, why: Why, unloads: bool)
    requires s.part.Some?
    ensures Inert(s, SettlePart(s, commit, why, unloads))
  {
  }

  lemma FinishInert(s: Server, commit: bool, unloads: bool)
    requires s.coord.Some?
    ensures Inert(s, FinishCoord(s, commit, unloads))
  {
    if s.part.Some? && s.part.value.tx == s.coord.value.tx { SettleInert(s, commit, Told, unloads); }
  }

  lemma AskInert(s: Server, prior: ModuleSet, unloads: bool)
    requires s.coord.Some?
    ensures Inert(s, AskAll(s, prior, unloads))
  {
    if s.coord.value.waiting == {} { FinishInert(s, !s.coord.value.failed, unloads); }
  }

  lemma BeginInert(s: Server, op: Op, name: string, peers: set<Sid>, att: Attempt)
    ensures Inert(s, Begin(s, op, name, peers, att))
  {
    var made := PrepareHere(s.modules, op, name, att);
    if !s.Busy() && s.sync && made.ok {
      AskInert(s.(serial := s.serial + 1, modules := made.modules,
                  coord := Some(Coordinating(NewTx(s), op, name, peers, false)),
                  part := Some(Participating(NewTx(s), op, name, made.undoLoad, s.self))), s.modules, att.unloads);
    }
  }

  lemma AnswerInert(s: Server, from: Sid, ok: bool, tx: TxId, unloads: bool)
    ensures Inert(s, RecvAnswer(s, from, ok, tx, unloads))
  {
    if s.coord.Some? && s.coord.value.tx == tx {
      var s1 := StopWaiting(if ok then s else FailCoord(s), from);
      if s1.coord.value.waiting == {} { FinishInert(s1, !s1.coord.value.failed, unloads); }
    }
  }

  lemma LoseInert(s: Server, x: Sid, at: nat, unloads: bool)
    ensures Inert(s, LoseCoordinator(s, x, at, unloads))
  {
  }

  lemma BothInert(s: Server, e: Effect, f: Effect)
    requires Inert(s, e) && Inert(e.server, f)
    ensures Inert(s, Then(e, f))
  {
  }

  lemma GoneInert(s: Server, x: Sid, at: nat, unloads: bool)
    ensures Inert(s, ServerGone(s, x, at, unloads))
  {
    var e := Nothing(s);
    if s.coord.Some? && x in s.coord.value.waiting {
      var s1 := StopWaiting(FailCoord(s), x);
      e := Nothing(s1);
      if s1.coord.value.waiting == {} {
        FinishInert(s1, false, unloads);
        e := FinishCoord(s1, false, unloads);
      }
    }
    LoseInert(e.server, x, at, unloads);
    BothInert(s, e, LoseCoordinator(e.server, x, at, unloads));
  }

  predicate Linkwise(input: Input) {
    input.InLink? || input.InUnlink? || (input.InMsg? && (input.msg.Announce? || input.msg.EndOfBurst?))
  }

  lemma MostInert(s: Server, input: Input)
    requires !Linkwise(input)
    ensures Inert(s, React(s, input))
  {
    match input
    case InBegin(op, name, peers, att) => BeginInert(s, op, name, peers, att);
    case InMsg(from, msg, att, _) => RecvInert(s, input);
    case InTimer(unloads) =>
      if s.coord.Some? { FinishInert(FailCoord(s.(armed := false)), false, unloads); }
      else if s.part.Some? { SettleInert(s.(armed := false), false, Deadline, unloads); }
    case InGone(x, at, unloads) => GoneInert(s, x, at, unloads);
    case InRehash(_) =>
  }

  lemma RecvInert(s: Server, input: Input)
    requires input.InMsg? && !Linkwise(input)
    ensures Inert(s, React(s, input))
  {
    match input.msg
    case Ready(_, tx) => AnswerInert(s, input.from, true, tx, input.att.unloads);
    case Failed(_, tx) => AnswerInert(s, input.from, false, tx, input.att.unloads);
    case Commit(tx) => if s.part.Some? && s.part.value.tx == tx { SettleInert(s, true, Told, input.att.unloads); }
    case Abort(tx) => if s.part.Some? && s.part.value.tx == tx { SettleInert(s, false, Told, input.att.unloads); }
    case Prepare(_, _, _) =>
  }

  lemma OffIsSilent(s: Server, input: Input)
    requires !s.sync
    ensures forall m :: m in React(s, input).out ==> !m.Announce?
  {
    if !Linkwise(input) { MostInert(s, input); }
  }

  /** Only an announcement makes a peer compared. */
  lemma ComparedByHearing(s: Server, input: Input, b: Sid)
    requires b in React(s, input).server.checked && b !in s.checked
    ensures input.InMsg? && input.from == b && input.msg.Announce?
  {
    if !Linkwise(input) { MostInert(s, input); }
  }

  lemma ComparedStays(s: Server, input: Input, b: Sid)
    requires b in s.checked && b in React(s, input).server.down && !input.InLink?
    ensures b in React(s, input).server.checked
  {
    if !Linkwise(input) { MostInert(s, input); }
    else if input.InUnlink? { WithoutMember(s.down, input.x, b); }
    else { WithoutMember(s.down, input.from, b); }
  }

  /** What an event puts on record about links. */
  lemma LinkNotes(s: Server, input: Input)
    requires !input.InLink?
    ensures forall n :: n in React(s, input).notes && About(n) ==>
              && input.InMsg? && input.msg == EndOfBurst(s.self) && n.Excused? && n.peer == input.from
              && (n.service || s.Busy())
  {
    if !Linkwise(input) { MostInert(s, input); }
  }

  /** A burst that ends uncompared is excused, or the link is gone. */
  lemma BurstEnds(s: Server, input: Input, b: Sid)
    requires s.sync && input.InMsg? && input.from == b && input.msg == EndOfBurst(s.self)
    requires b in s.down && b in React(s, input).server.down
    ensures b in s.checked || React(s, input).notes == [Excused(b, input.service)]
  {
    WithoutMember(s.down, b, b);
  }

  // ----- every run keeps it -----

  ghost predicate Moved(net: Net, i: Sid, input: Input, e: Effect, net': Net) {
    Stepped(net, i, input, e, net') && e == React(net.srv[i], input) && !input.InLink? && net.srv[i].self == i
  }

  lemma KeepsSpoken(net: Net, i: Sid, input: Input, e: Effect, net': Net, a: Sid)
    requires Moved(net, i, input, e, net') && a in net.srv
    requires forall x :: x in net.srv ==> SpokenOk(net, x)
    ensures SpokenOk(net', a)
  {
    assert SpokenOk(net, a);
    if a == i {
      if !net.srv[i].sync { OffIsSilent(net.srv[i], input); }
      forall b | b in e.server.checked ensures b in net.srv && net.srv[b].sync {
        if b !in net.srv[i].checked {
          ComparedByHearing(net.srv[i], input, b);
          assert SpokenOk(net, b) && net.log[b][net.cur[(b, i)]] == input.msg;
        }
      }
    }
  }

  lemma ExcusedStays(h: seq<Note>, more: seq<Note>, b: Sid)
    requires forall n :: n in more ==> n != LinkUp(b)
    ensures ExcusedSince(h, b) ==> ExcusedSince(h + more, b)
    ensures ExcusedSince(h + more, b) ==> ExcusedSince(h, b) || exists n :: n in more && n.Excused? && n.peer == b
  {
    var all := h + more;
    if ExcusedSince(h, b) {
      var k :| 0 <= k < |h| && h[k].Excused? && h[k].peer == b && forall m :: k < m < |h| ==> h[m] != LinkUp(b);
      assert all[k].Excused? && all[k].peer == b;
      forall m | k < m < |all| ensures all[m] != LinkUp(b) {
        if m >= |h| { assert all[m] in more; }
      }
    }
    if ExcusedSince(all, b) {
      var k :| 0 <= k < |all| && all[k].Excused? && all[k].peer == b
            && forall m :: k < m < |all| ==> all[m] != LinkUp(b);
      if k < |h| {
        assert forall m :: k < m < |h| ==> h[m] == all[m];
        assert ExcusedSince(h, b);
      } else {
        assert all[k] in more;
      }
    }
  }

  lemma EndsGrow(log: seq<Msg>, out: seq<Msg>, from: nat, a: Sid)
    requires from <= |log| && forall m :: m in out ==> m != EndOfBurst(a)
    ensures EndsIn(log + out, from, a) <==> EndsIn(log, from, a)
    ensures EndsTwice(log + out, from, a) <==> EndsTwice(log, from, a)
  {
    var all := log + out;
    assert forall k :: 0 <= k < |log| ==> all[k] == log[k];
    forall k | |log| <= k < |all| ensures all[k] != EndOfBurst(a) {
      assert all[k] == out[k - |log|] && all[k] in out;
    }
  }

  lemma EndsMove(log: seq<Msg>, from: nat, a: Sid)
    requires from < |log| && !EndsTwice(log, from, a)
    ensures EndsIn(log, from, a) <==> log[from] == EndOfBurst(a) || EndsIn(log, from + 1, a)
    ensures log[from] == EndOfBurst(a) ==> !EndsIn(log, from + 1, a)
    ensures !EndsTwice(log, from + 1, a)
  {
  }

  /** The listening end's own event. */
  lemma ListenerKeeps(net: Net, i: Sid, input: Input, e: Effect, net': Net, b: Sid)
    requires Moved(net, i, input, e, net') && b in net.srv && b != i && BurstOk(net, i, b)
    ensures BurstOk(net', i, b)
  {
    var s, log, from := net.srv[i], net.log[b], net.cur[(b, i)];
    var heard := input.InMsg? && input.from == b;
    if heard { EndsMove(log, from, i); }
    LinkNotes(s, input);
    ExcusedStays(net.hist[i], e.notes, b);
    assert net'.log[b] == log && net'.cur[(b, i)] == (if heard then from + 1 else from);
    assert net'.hist[i] == net.hist[i] + e.notes && net'.srv[i] == e.server;
    if Linked(net', i, b) && e.server.sync {
      LinksOnlyShrink(s, input, b);
      ListenerLinked(s, input, b, net.hist[i]);
    }
  }

  lemma ListenerLinked(s: Server, input: Input, b: Sid, h: seq<Note>)
    requires !input.InLink? && s.sync && b in s.down && b in React(s, input).server.down
    ensures b in s.checked ==> b in React(s, input).server.checked
    ensures input.InMsg? && input.from == b && input.msg == EndOfBurst(s.self) ==>
              b in s.checked || ExcusedSince(h + React(s, input).notes, b)
  {
    if b in s.checked { ComparedStays(s, input, b); }
    else if input.InMsg? && input.from == b && input.msg == EndOfBurst(s.self) {
      BurstEnds(s, input, b);
      assert (h + React(s, input).notes)[|h|] == Excused(b, input.service);
    }
  }

  /** The bursting end's own event. */
  lemma SpeakerKeeps(net: Net, i: Sid, input: Input, e: Effect, net': Net, a: Sid)
    requires Moved(net, i, input, e, net') && a in net.srv && a != i && BurstOk(net, a, i)
    ensures BurstOk(net', a, i)
  {
    LinksOnlyShrink(net.srv[i], input, a);
    forall m | m in e.out ensures m != EndOfBurst(a) { assert MsgFacts(net.srv[i], input, e, m); }
    EndsGrow(net.log[i], e.out, net.cur[(i, a)], a);
    assert net'.cur[(i, a)] == net.cur[(i, a)] && net'.hist[a] == net.hist[a];
  }

  lemma OthersKeep(net: Net, i: Sid, input: Input, e: Effect, net': Net, a: Sid, b: Sid)
    requires Moved(net, i, input, e, net') && a in net.srv && b in net.srv && a != i && b != i && BurstOk(net, a, b)
    ensures BurstOk(net', a, b)
  {
  }

  lemma HappenBursts(net: Net, i: Sid, input: Input)
    requires Inv(net) && BurstInv(net) && i in net.srv && Fits(net, i, input) && !input.InLink?
    ensures BurstInv(Happen(net, i, input))
  {
    HappenMoves(net, i, input);
    BurstsMove(net, i, input, React(net.srv[i], input), Happen(net, i, input));
  }

  lemma HappenMoves(net: Net, i: Sid, input: Input)
    requires Inv(net) && i in net.srv && Fits(net, i, input) && !input.InLink?
    ensures Moved(net, i, input, React(net.srv[i], input), Happen(net, i, input))
  {
    SelfIs(net, i, input);
    ReactFacts(net.srv[i], input);
    ActShape(net, i, input, React(net.srv[i], input), Happen(net, i, input));
  }

  lemma SelfIs(net: Net, i: Sid, input: Input)
    requires Inv(net) && i in net.srv && Fits(net, i, input)
    ensures InputOk(net.srv[i], input) && LocalOk(net.srv[i]) && net.srv[i].self == i
  {
    InputFits(net, i, input);
    assert StreamOk(net.srv[i], net.log[i], net.hist[i]);
  }

  lemma BurstsMove(net: Net, i: Sid, input: Input, e: Effect, net': Net)
    requires BurstInv(net) && Moved(net, i, input, e, net')
    ensures BurstInv(net')
  {
    forall a | a in net'.srv ensures SpokenOk(net', a) { KeepsSpoken(net, i, input, e, net', a); }
    forall a, b | a in net'.srv && b in net'.srv && a != b ensures BurstOk(net', a, b) {
      assert BurstOk(net, a, b);
      if a == i { ListenerKeeps(net, i, input, e, net', b); }
      else if b == i { SpeakerKeeps(net, i, input, e, net', a); }
      else { OthersKeep(net, i, input, e, net', a, b); }
    }
  }

  lemma AdvanceBursts(net: Net, src: Sid, dst: Sid, to: nat)
    requires BurstInv(net) && src in net.srv && dst in net.srv && src != dst && !Linked(net, src, dst)
    requires net.cur[(src, dst)] <= to <= |net.log[src]|
    ensures BurstInv(Advance(net, src, dst, to))
  {
    var net' := Advance(net, src, dst, to);
    forall a | a in net'.srv ensures SpokenOk(net', a) { assert SpokenOk(net, a); }
    forall a, b | a in net'.srv && b in net'.srv && a != b ensures BurstOk(net', a, b) {
      assert BurstOk(net, a, b);
    }
  }

  lemma UpSpoken(net: Net, a: Sid, b: Sid, net': Net, x: Sid)
    requires JustUp(net, a, b, net') && x in net.srv && SpokenOk(net, x)
    ensures SpokenOk(net', x)
  {
  }

  /** Over the new link both bursts are unread, and nothing is excused yet. */
  lemma UpNew(net: Net, a: Sid, b: Sid, net': Net, x: Sid, y: Sid)
    requires JustUp(net, a, b, net') && ((x == a && y == b) || (x == b && y == a))
    ensures BurstOk(net', x, y)
  {
    var was, now := net.log[y], net'.log[y];
    assert net'.cur[(y, x)] == |was|;
    assert now == was + Hello(net.srv[y], x);
    assert now[|now| - 1] == EndOfBurst(x);
    assert forall k :: |was| <= k < |now| - 1 ==> now[k] == Announce(x, net.srv[y].modules);
    var h := net'.hist[x];
    assert h[|h| - 1] == LinkUp(y);
  }

  lemma UpOld(net: Net, a: Sid, b: Sid, net': Net, x: Sid, y: Sid)
    requires JustUp(net, a, b, net') && x in net.srv && y in net.srv && x != y && BurstOk(net, x, y)
    requires !(x == a && y == b) && !(x == b && y == a)
    ensures BurstOk(net', x, y)
  {
    NotTold(net, a, b, net', x, y);
    NotTold(net, a, b, net', y, x);
    EndsGrow(net.log[y], if y == a || y == b then Hello(net.srv[y], Peer(a, b, y)) else [], net.cur[(y, x)], x);
    ExcusedStays(net.hist[x], if x == a || x == b then [LinkUp(Peer(a, b, x))] else [], y);
    assert net'.cur[(y, x)] == net.cur[(y, x)];
  }

  lemma LinkBursts(net: Net, a: Sid, b: Sid, net': Net)
    requires BurstInv(net) && JustUp(net, a, b, net')
    ensures BurstInv(net')
  {
    forall x | x in net'.srv ensures SpokenOk(net', x) { UpSpoken(net, a, b, net', x); }
    forall x, y | x in net'.srv && y in net'.srv && x != y ensures BurstOk(net', x, y) {
      assert BurstOk(net, x, y);
      if (x == a && y == b) || (x == b && y == a) { UpNew(net, a, b, net', x, y); }
      else { UpOld(net, a, b, net', x, y); }
    }
  }

  lemma ActionBursts(net: Net, act: Action)
    requires Inv(net) && BurstInv(net) && Enabled(net, act)
    ensures BurstInv(Do(net, act))
  {
    match act
    case Act(i, input) => HappenBursts(net, i, input);
    case Lose(src, dst, upto) => AdvanceBursts(net, src, dst, upto);
    case Link(a, b) =>
      ActionKeeps(net, act);
      LinkShape(net, a, b);
      LinkBursts(net, a, b, Do(net, act));
  }

  lemma {:induction false} RunBursts(net: Net, acts: seq<Action>, last: Net)
    requires Inv(net) && BurstInv(net) && Run(net, acts, last)
    ensures BurstInv(last)
    decreases |acts|
  {
    if acts != [] {
      ActionKeeps(net, acts[0]);
      ActionBursts(net, acts[0]);
      RunBursts(Do(net, acts[0]), acts[1..], last);
    }
  }

  lemma InitialBursts(net: Net)
    requires Initial(net)
    ensures BurstInv(net)
  {
  }

  // ----- what becomes of a peer that never says what it runs -----

  /** A peer not compared by the end of its burst stays linked if and only if
      it is a service or a transaction is under way at that moment. */
  lemma BurstSurvivesIff(s: Server, input: Input, b: Sid)
    requires s.sync && input.InMsg? && input.from == b && input.msg == EndOfBurst(s.self)
    requires b in s.down && b !in s.checked
    ensures b in React(s, input).server.down <==> input.service || s.Busy()
    ensures React(s, input).notes == if input.service || s.Busy() then [Excused(b, input.service)] else []
  {
    WithoutMember(s.down, b, b);
  }

  /** In every reachable network, a server that keeps the rule has compared
      each of its links, or has not read the end of its burst, or excused it
      then.  For a peer that never announces only the last two remain, and
      exactly one of them holds. */
  lemma LinksAccounted(net: Net, a: Sid, b: Sid)
    requires Reachable(net) && WF(net) && a in net.srv && b in net.srv && a != b
    requires Linked(net, a, b) && net.srv[a].sync
    ensures b in net.srv[a].checked || BurstUnread(net, b, a) || ExcusedSince(net.hist[a], b)
    ensures !net.srv[b].sync ==> (ExcusedSince(net.hist[a], b) <==> !BurstUnread(net, b, a))
  {
    var start, acts :| Initial(start) && Run(start, acts, net);
    InitialInv(start);
    InitialBursts(start);
    RunBursts(start, acts, net);
    assert BurstOk(net, a, b) && SpokenOk(net, a);
  }

  /** When nothing is under way on a link and nothing was silent, its ends run
      equal sets; the only exception is a peer that never announces and was
      excused when its burst ended. */
  lemma QuietLinks(start: Net, acts: seq<Action>, net: Net, a: Sid, b: Sid)
    requires Initial(start) && Run(start, acts, net) && LoudRun(start, acts)
    requires a in net.srv && b in net.srv && a != b && Linked(net, a, b) && net.srv[a].sync && Quiet(net, a, b)
    ensures net.srv[a].modules == net.srv[b].modules
         || (!net.srv[b].sync && a in net.hist && ExcusedSince(net.hist[a], b))
  {
    if net.srv[b].sync {
      QuietLinksAgree(start, acts, net, a, b);
    } else {
      InitialInv(start);
      RunKeeps(start, acts, net);
      LinksAccounted(net, a, b);
    }
  }
}
