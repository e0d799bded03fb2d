/** The link rule: two linked servers run the same modules, or the difference
    is still on its way to being noticed. */
module ModuleSyncLinks {
  import opened Options
  import opened ModuleSync
  import opened ModuleSyncSteps
  import opened ModuleSyncNet

  /** A line in which its sender tells b what it runs. */
  predicate Tells(m: Msg, b: Sid) { m.Announce? && m.to == b }

  /** The last thing told to b in log[from..] is that `modules` is what runs here. */
  ghost predicate LastTold(log: seq<Msg>, from: nat, b: Sid, modules: ModuleSet) {
    exists k :: from <= k < |log| && log[k] == Announce(b, modules)
                && forall m :: k < m < |log| ==> !Tells(log[m], b)
  }

  /** b has yet to read what a runs. */
  ghost predicate OnItsWay(net: Net, a: Sid, b: Sid)
    requires WF(net) && a in net.srv && b in net.srv
  {
    LastTold(net.log[a], net.cur[(a, b)], b, net.srv[a].modules)
  }

  ghost predicate LinkOk(net: Net, a: Sid, b: Sid)
    requires WF(net) && a in net.srv && b in net.srv
  {
    a != b && Linked(net, a, b) && net.srv[a].sync && net.srv[b].sync ==>
      || net.srv[a].Busy() || net.srv[b].Busy()
      || OnItsWay(net, a, b) || OnItsWay(net, b, a)
      || net.srv[a].modules == net.srv[b].modules
  }

  ghost predicate LinkInv(net: Net) {
    WF(net) && forall a, b :: a in net.srv && b in net.srv ==> LinkOk(net, a, b)
  }

  /** The event leaves s with something to tell b that it does not tell: s is
      free again, or runs something else, and has sent b nothing. */
  ghost predicate Unannounced(s: Server, input: Input, b: Sid) {
    var e := React(s, input);
    && b in e.server.down && !e.server.Busy() && (s.Busy() || e.server.modules != s.modules)
    && forall m :: m in e.out ==> !Tells(m, b)
  }

  // ----- links and their lists -----

  lemma {:induction false} WithoutMember(links: seq<Sid>, x: Sid, y: Sid)
    ensures y in Without(links, x) <==> y in links && y != x
  {
    if links != [] { WithoutMember(links[1..], x, y); }
  }

  lemma LinksOnlyShrink(s: Server, input: Input, b: Sid)
    requires !input.InLink?
    ensures b in React(s, input).server.down ==> b in s.down
  {
    if input.InUnlink? {
      WithoutMember(s.down, input.x, b);
    } else if input.InMsg? && (input.msg.Announce? || input.msg.EndOfBurst?) {
      WithoutMember(s.down, input.from, b);
    } else if input.InMsg? {
      RecvKeepsLinks(s, input.from, input.msg, input.att, input.service);
    } else {
      OwnEventKeepsLinks(s, input);
    }
  }

  lemma RecvKeepsLinks(s: Server, from: Sid, msg: Msg, att: Attempt, service: bool)
    requires !msg.Announce? && !msg.EndOfBurst?
    ensures Recv(s, from, msg, att, service).server.down == s.down
  {
  }

  lemma FinishKeepsLinks(s: Server, commit: bool, unloads: bool)
    requires s.coord.Some?
    ensures FinishCoord(s, commit, unloads).server.down == s.down
  {
  }

  lemma BeginKeepsLinks(s: Server, op: Op, name: string, peers: set<Sid>, att: Attempt)
    ensures Begin(s, op, name, peers, att).server.down == s.down
  {
  }

  lemma GoneKeepsLinks(s: Server, x: Sid, at: nat, unloads: bool)
    ensures ServerGone(s, x, at, unloads).server.down == s.down
  {
    if s.coord.Some? && x in s.coord.value.waiting {
      var s1 := StopWaiting(FailCoord(s), x);
      if s1.coord.value.waiting == {} { FinishKeepsLinks(s1, false, unloads); }
    }
  }

  lemma OwnEventKeepsLinks(s: Server, input: Input)
    requires !input.InMsg? && !input.InLink? && !input.InUnlink?
    ensures React(s, input).server.down == s.down
  {
    match input
    case InBegin(op, name, peers, att) => BeginKeepsLinks(s, op, name, peers, att);
    case InTimer(unloads) => if s.coord.Some? { FinishKeepsLinks(FailCoord(s.(armed := false)), false, unloads); }
    case InGone(x, at, unloads) => GoneKeepsLinks(s, x, at, unloads);
    case InRehash(_) =>
  }

  // ----- appending to a stream -----

  lemma ToldStays(log: seq<Msg>, out: seq<Msg>, from: nat, b: Sid, modules: ModuleSet)
    requires LastTold(log, from, b, modules) && forall m :: m in out ==> !Tells(m, b)
    ensures LastTold(log + out, from, b, modules)
  {
    var k :| from <= k < |log| && log[k] == Announce(b, modules) && forall m :: k < m < |log| ==> !Tells(log[m], b);
    assert (log + out)[k] == Announce(b, modules);
    forall m | k < m < |log + out| ensures !Tells((log + out)[m], b) {
      if m >= |log| { assert (log + out)[m] == out[m - |log|]; }
    }
  }

  lemma {:induction false} ToldNow(log: seq<Msg>, out: seq<Msg>, from: nat, b: Sid, modules: ModuleSet)
    requires from <= |log| && exists m :: m in out && Tells(m, b)
    requires forall m :: m in out && Tells(m, b) ==> m.digest == modules
    ensures LastTold(log + out, from, b, modules)
    decreases |out|
  {
    var last := out[|out| - 1];
    var rest := out[..|out| - 1];
    assert log + out == (log + rest) + [last];
    if Tells(last, b) {
      assert (log + out)[|log + out| - 1] == Announce(b, modules);
    } else {
      forall m | m in out && Tells(m, b) ensures m in rest { }
      ToldNow(log, rest, from, b, modules);
      ToldStays(log + rest, [last], from, b, modules);
    }
  }

  /** The speaker's side: its own event leaves the link accounted for. */
  lemma SpeakerOk(log: seq<Msg>, from: nat, s: Server, input: Input, e: Effect, b: Sid)
    requires e == React(s, input) && StepFacts(s, input, e) && from <= |log|
    requires b in e.server.down && !e.server.Busy() && !Unannounced(s, input, b)
    ensures || LastTold(log + e.out, from, b, e.server.modules)
            || (!s.Busy() && e.server.modules == s.modules && forall m :: m in e.out ==> !Tells(m, b))
  {
    if exists m :: m in e.out && Tells(m, b) {
      forall m | m in e.out && Tells(m, b) ensures m.digest == e.server.modules {
        assert MsgFacts(s, input, e, m);
      }
      ToldNow(log, e.out, from, b, e.server.modules);
    }
  }

  /** A line still unread stays unread when something else is read. */
  lemma ToldLater(log: seq<Msg>, from: nat, b: Sid, modules: ModuleSet)
    requires LastTold(log, from, b, modules) && from < |log|
    requires log[from] != Announce(b, modules)
    ensures LastTold(log, from + 1, b, modules)
  {
  }

  // ----- one server's event -----

  /** An idle server that reads a differing announcement drops the link. */
  lemma HearingSettles(s: Server, input: Input, b: Sid, modules: ModuleSet)
    requires !s.Busy() && s.sync && b in s.down && input.InMsg? && input.from == b
    requires input.msg == Announce(s.self, modules)
    ensures b in React(s, input).server.down ==> modules == s.modules
  {
    WithoutMember(s.down, b, b);
  }

  ghost predicate Happened(net: Net, i: Sid, input: Input, e: Effect, net': Net) {
    && WF(net) && WF(net') && i in net.srv && Fits(net, i, input) && !input.InLink?
    && e == React(net.srv[i], input) && StepFacts(net.srv[i], input, e)
    && net'.srv == net.srv[i := e.server] && net'.log == net.log[i := net.log[i] + e.out]
    && net'.cur == if input.InMsg? then net.cur[(input.from, i) := net.cur[(input.from, i)] + 1] else net.cur
  }

  lemma OwnLink(net: Net, i: Sid, input: Input, e: Effect, net': Net, b: Sid)
    requires Happened(net, i, input, e, net') && b in net.srv && b != i
    requires LinkOk(net, i, b) && (net.srv[i].sync ==> !Unannounced(net.srv[i], input, b))
    ensures LinkOk(net', i, b)
  {
    var s := net.srv[i];
    LinksOnlyShrink(s, input, b);
    if Linked(net', i, b) && s.sync && net.srv[b].sync && !e.server.Busy() && !net.srv[b].Busy() {
      SpeakerOk(net.log[i], net.cur[(i, b)], s, input, e, b);
      if OnItsWay(net, i, b) && e.server.modules == s.modules && forall m :: m in e.out ==> !Tells(m, b) {
        ToldStays(net.log[i], e.out, net.cur[(i, b)], b, s.modules);
      }
      if !OnItsWay(net', i, b) && OnItsWay(net, b, i) && input.InMsg? && input.from == b {
        if input.msg == Announce(i, net.srv[b].modules) {
          HearingSettles(s, input, b, net.srv[b].modules);
        } else {
          ToldLater(net.log[b], net.cur[(b, i)], i, net.srv[b].modules);
        }
      }
    }
  }

  lemma OtherLink(net: Net, i: Sid, input: Input, e: Effect, net': Net, a: Sid, b: Sid)
    requires Happened(net, i, input, e, net') && a in net.srv && b in net.srv && a != i && b != i
    requires LinkOk(net, a, b)
    ensures LinkOk(net', a, b)
  {
  }

  lemma LinksHappen(net: Net, i: Sid, input: Input, e: Effect, net': Net)
    requires LinkInv(net) && Happened(net, i, input, e, net')
    requires net.srv[i].sync ==> forall b :: b in net.srv ==> !Unannounced(net.srv[i], input, b)
    ensures LinkInv(net')
  {
    forall a, b | a in net'.srv && b in net'.srv ensures LinkOk(net', a, b) {
      if a == b {
      } else if a == i { OwnLink(net, i, input, e, net', b); }
      else if b == i { assert LinkOk(net, i, a); OwnLink(net, i, input, e, net', a); }
      else { OtherLink(net, i, input, e, net', a, b); }
    }
  }

  // ----- exactly which events leave a link unannounced -----

  /** The reload that took the old module out and could not put it back. */
  predicate LostByReload(s: Server, op: Op, name: string, att: Attempt) {
    s.sync && !s.Busy() && op == Reload && name in s.modules && att.unloads && att.loads.None?
  }

  /** The guards under which the code ends a wait or loses a module and says
      nothing: the coordinator left, or a reload failed half-way. */
  predicate Silent(s: Server, input: Input) {
    match input
    case InGone(x, _, _) => s.part.Some? && s.part.value.coordinator == x
    case InBegin(op, name, _, att) => LostByReload(s, op, name, att)
    case InMsg(_, Prepare(_, op, name), att, _) => LostByReload(s, op, name, att)
    case _ => false
  }

  lemma SettleTellsAll(s: Server, commit: bool, why: Why, unloads: bool, b: Sid)
    requires s.part.Some? && s.sync && b in s.down
    ensures exists m :: m in SettlePart(s, commit, why, unloads).out && Tells(m, b)
  {
    var e := SettlePart(s, commit, why, unloads);
    OnlyAnnouncements(s.down, e.server.modules);
    var k :| 0 <= k < |s.down| && s.down[k] == b;
    assert Tells(e.out[k], b);
  }

  lemma FinishTellsAll(s: Server, commit: bool, unloads: bool, b: Sid)
    requires s.coord.Some? && s.part.Some? && s.part.value.tx == s.coord.value.tx && s.sync && b in s.down
    ensures exists m :: m in FinishCoord(s, commit, unloads).out && Tells(m, b)
  {
    SettleTellsAll(s, commit, Told, unloads, b);
    var m :| m in SettlePart(s, commit, Told, unloads).out && Tells(m, b);
    assert m in FinishCoord(s, commit, unloads).out;
  }

  lemma BeginTells(s: Server, input: Input, b: Sid)
    requires LocalOk(s) && InputOk(s, input) && s.sync && input.InBegin? && b in s.down
    ensures Unannounced(s, input, b) <==> Silent(s, input)
  {
    if !s.Busy() && PrepareHere(s.modules, input.op, input.name, input.att).ok && input.peers == {} {
      var made := PrepareHere(s.modules, input.op, input.name, input.att);
      var tx := NewTx(s);
      var s2 := s.(serial := s.serial + 1, modules := made.modules,
                   coord := Some(Coordinating(tx, input.op, input.name, input.peers, false)),
                   part := Some(Participating(tx, input.op, input.name, made.undoLoad, s.self)));
      FinishTellsAll(s2, true, input.att.unloads, b);
      var m :| m in FinishCoord(s2, true, input.att.unloads).out && Tells(m, b);
      assert m in React(s, input).out;
    }
    if LostByReload(s, input.op, input.name, input.att) {
      assert input.name !in React(s, input).server.modules;
    }
  }

  lemma MsgTells(s: Server, input: Input, b: Sid)
    requires LocalOk(s) && InputOk(s, input) && s.sync && input.InMsg?
    requires b in s.down && b in React(s, input).server.down
    ensures Unannounced(s, input, b) <==> Silent(s, input)
  {
    match input.msg
    case Prepare(_, op, name) =>
      if LostByReload(s, op, name, input.att) { assert name !in React(s, input).server.modules; }
    case Commit(tx) => if s.part.Some? && s.part.value.tx == tx { SettleTellsAll(s, true, Told, input.att.unloads, b); }
    case Abort(tx) => if s.part.Some? && s.part.value.tx == tx { SettleTellsAll(s, false, Told, input.att.unloads, b); }
    case Ready(_, tx) => AnswerTells(s, input.from, true, tx, input.att.unloads, b);
    case Failed(_, tx) => AnswerTells(s, input.from, false, tx, input.att.unloads, b);
    case _ =>
  }

  lemma AnswerTells(s: Server, from: Sid, ok: bool, tx: TxId, unloads: bool, b: Sid)
    requires LocalOk(s) && s.sync && b in s.down
    ensures var e := RecvAnswer(s, from, ok, tx, unloads);
            e.server.Busy() || e.server == s || exists m :: m in e.out && Tells(m, b)
  {
    if s.coord.Some? && s.coord.value.tx == tx {
      var s1 := StopWaiting(if ok then s else FailCoord(s), from);
      if s1.coord.value.waiting == {} { FinishTellsAll(s1, !s1.coord.value.failed, unloads, b); }
    }
  }

  lemma GoneTells(s: Server, input: Input, b: Sid)
    requires LocalOk(s) && InputOk(s, input) && s.sync && input.InGone? && b in s.down
    ensures Unannounced(s, input, b) <==> Silent(s, input)
  {
    if s.coord.Some? && input.x in s.coord.value.waiting {
      var s1 := StopWaiting(FailCoord(s), input.x);
      if s1.coord.value.waiting == {} {
        FinishTellsAll(s1, false, input.unloads, b);
        var e := FinishCoord(s1, false, input.unloads);
        var m :| m in e.out && Tells(m, b);
        assert m in React(s, input).out;
      }
    }
  }

  /** An event on a server that keeps the rule leaves a link unannounced if
      and only if it is one of the silent ones. */
  lemma UnannouncedIffSilent(s: Server, input: Input, b: Sid)
    requires LocalOk(s) && InputOk(s, input) && s.sync && !input.InLink?
    requires b in React(s, input).server.down
    ensures Unannounced(s, input, b) <==> Silent(s, input)
  {
    LinksOnlyShrink(s, input, b);
    match input
    case InBegin(_, _, _, _) => BeginTells(s, input, b);
    case InMsg(_, _, _, _) => MsgTells(s, input, b);
    case InGone(_, _, _) => GoneTells(s, input, b);
    case InTimer(unloads) =>
      if s.coord.Some? { FinishTellsAll(FailCoord(s.(armed := false)), false, unloads, b); }
      else { SettleTellsAll(s.(armed := false), false, Deadline, unloads, b); }
    case InRehash(modules) =>
      OnlyAnnouncements(s.down, modules);
      var k :| 0 <= k < |s.down| && s.down[k] == b;
      assert Tells(React(s, input).out[k], b);
    case InUnlink(_) =>
  }

  // ----- every run without a silent event -----

  predicate SilentAct(net: Net, act: Action) {
    act.Act? && act.i in net.srv && net.srv[act.i].sync && Silent(net.srv[act.i], act.input)
  }

  lemma ActLinks(net: Net, i: Sid, input: Input)
    requires LinkInv(net) && i in net.srv && Fits(net, i, input) && !input.InLink?
    requires LocalOk(net.srv[i]) && InputOk(net.srv[i], input) && !SilentAct(net, Act(i, input))
    ensures LinkInv(Happen(net, i, input))
  {
    ReactFacts(net.srv[i], input);
    HappenWF(net, i, input);
    var e, net' := React(net.srv[i], input), Happen(net, i, input);
    if net.srv[i].sync {
      forall b | b in net.srv ensures !Unannounced(net.srv[i], input, b) {
        if b in e.server.down { UnannouncedIffSilent(net.srv[i], input, b); }
      }
    }
    assert Happened(net, i, input, e, net');
    LinksHappen(net, i, input, e, net');
  }

  /** What a new link adds: each end lists the other and has told it. */
  ghost predicate JustUp(net: Net, a: Sid, b: Sid, net': Net) {
    && WF(net) && WF(net') && Enabled(net, Link(a, b)) && net'.srv.Keys == net.srv.Keys
    && (forall x :: x in net.srv ==>
          && net'.srv[x] == (if x == a || x == b then With(net.srv[x], Peer(a, b, x)) else net.srv[x])
          && net'.log[x] == net.log[x] + (if x == a || x == b then Hello(net.srv[x], Peer(a, b, x)) else [])
          && net'.hist[x] == net.hist[x] + (if x == a || x == b then [LinkUp(Peer(a, b, x))] else []))
    && net'.cur == net.cur[(a, b) := |net.log[a]|][(b, a) := |net.log[b]|]
  }

  function Peer(a: Sid, b: Sid, x: Sid): Sid { if x == a then b else a }

  function With(s: Server, x: Sid): Server { s.(down := s.down + [x], checked := s.checked - {x}) }

  function Hello(s: Server, x: Sid): seq<Msg> {
    (if s.sync then [Announce(x, s.modules)] else []) + [EndOfBurst(x)]
  }

  /** i has greeted x. */
  ghost predicate Greeted(net: Net, i: Sid, x: Sid, net': Net)
    requires WF(net) && i in net.srv
  {
    && net'.srv == net.srv[i := With(net.srv[i], x)] && net'.log == net.log[i := net.log[i] + Hello(net.srv[i], x)]
    && net'.hist == net.hist[i := net.hist[i] + [LinkUp(x)]] && net'.cur == net.cur
  }

  /** One end of a new link. */
  lemma HelloShape(net: Net, i: Sid, x: Sid)
    requires WF(net) && i in net.srv && x in net.srv && x != i
    ensures Greeted(net, i, x, Happen(net, i, InLink(x)))
  {
  }

  lemma BothGreeted(net: Net, net1: Net, net2: Net, net': Net, a: Sid, b: Sid)
    requires WF(net) && WF(net1) && WF(net2) && WF(net') && Enabled(net, Link(a, b))
    requires net1 == net.(cur := net.cur[(a, b) := |net.log[a]|][(b, a) := |net.log[b]|])
    requires Greeted(net1, a, b, net2) && Greeted(net2, b, a, net')
    ensures JustUp(net, a, b, net')
  {
  }

  lemma LinkShape(net: Net, a: Sid, b: Sid)
    requires WF(net) && Enabled(net, Link(a, b)) && WF(Do(net, Link(a, b)))
    ensures JustUp(net, a, b, Do(net, Link(a, b)))
  {
    var net1 := Advance(Advance(net, a, b, |net.log[a]|), b, a, |net.log[b]|);
    HelloShape(net1, a, b);
    var net2 := Happen(net1, a, InLink(b));
    HelloShape(net2, b, a);
    BothGreeted(net, net1, net2, Happen(net2, b, InLink(a)), a, b);
  }

  /** Two servers that have just linked have each told the other. */
  lemma LinkLinks(net: Net, a: Sid, b: Sid, net': Net)
    requires LinkInv(net) && JustUp(net, a, b, net')
    ensures LinkInv(net')
  {
    forall x, y | x in net'.srv && y in net'.srv ensures LinkOk(net', x, y) {
      assert LinkOk(net, x, y);
      if x != y {
        if (x == a && y == b) || (x == b && y == a) { NewLinkOk(net, a, b, net', x, y); }
        else { OldLinkOk(net, a, b, net', x, y); }
      }
    }
  }

  lemma NewLinkOk(net: Net, a: Sid, b: Sid, net': Net, x: Sid, y: Sid)
    requires JustUp(net, a, b, net') && ((x == a && y == b) || (x == b && y == a))
    ensures LinkOk(net', x, y)
  {
    if net'.srv[x].sync {
      assert net'.log[x][|net.log[x]|] == Announce(y, net'.srv[x].modules);
      assert OnItsWay(net', x, y);
    }
  }

  lemma OldLinkOk(net: Net, a: Sid, b: Sid, net': Net, x: Sid, y: Sid)
    requires JustUp(net, a, b, net') && x in net.srv && y in net.srv && x != y && LinkOk(net, x, y)
    requires !(x == a && y == b) && !(x == b && y == a)
    ensures LinkOk(net', x, y)
  {
    NotTold(net, a, b, net', x, y);
    NotTold(net, a, b, net', y, x);
  }

  lemma NotTold(net: Net, a: Sid, b: Sid, net': Net, x: Sid, y: Sid)
    requires JustUp(net, a, b, net') && x in net.srv && y in net.srv && x != y
    requires !(x == a && y == b) && !(x == b && y == a)
    ensures OnItsWay(net, x, y) ==> OnItsWay(net', x, y)
    ensures y in net'.srv[x].down <==> y in net.srv[x].down
  {
    if OnItsWay(net, x, y) {
      var out := if x == a || x == b then Hello(net.srv[x], Peer(a, b, x)) else [];
      ToldStays(net.log[x], out, net.cur[(x, y)], y, net.srv[x].modules);
    }
  }
}
