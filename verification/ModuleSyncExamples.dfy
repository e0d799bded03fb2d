/** Concrete runs in which the flat rule -- every server runs the same modules
    for the whole time it is on the network -- does not hold. */
module ModuleSyncExamples {
  import opened Options
  import opened ModuleSync
  import opened ModuleSyncSteps
  import opened ModuleSyncNet
  import opened ModuleSyncTheorems
  import opened ModuleSyncAborts

  /** One end of a two-server network. */
  datatype End = End(server: Server, log: seq<Msg>, read: nat, hist: seq<Note>)

  /** Servers 0 and 1; `read` is how much each has read of the other. */
  function Pair(a: End, b: End): Net {
    Net(map[0 := a.server, 1 := b.server], map[0 := a.log, 1 := b.log],
        map[(0, 0) := 0, (0, 1) := b.read, (1, 0) := a.read, (1, 1) := 0], map[0 := a.hist, 1 := b.hist])
  }

  ghost predicate PairOk(a: End, b: End) {
    a.server.self == 0 && b.server.self == 1 && a.read <= |b.log| && b.read <= |a.log|
  }

  function Grown(a: End, e: Effect, read: nat): End {
    End(e.server, a.log + e.out, read, a.hist + e.notes)
  }

  lemma FirstGrows(a: End, b: End, e: Effect)
    ensures Apply(Pair(a, b), 0, e) == Pair(Grown(a, e, a.read), b)
  {
    assert Apply(Pair(a, b), 0, e).srv == map[0 := e.server, 1 := b.server];
  }

  lemma FirstMovesOn(a: End, b: End, read: nat)
    ensures Advance(Pair(a, b), 1, 0, read) == Pair(a.(read := read), b)
  {
    assert Advance(Pair(a, b), 1, 0, read).cur == Pair(a.(read := read), b).cur;
  }

  lemma SecondGrows(a: End, b: End, e: Effect)
    ensures Apply(Pair(a, b), 1, e) == Pair(a, Grown(b, e, b.read))
  {
    assert Apply(Pair(a, b), 1, e).srv == map[0 := a.server, 1 := e.server];
  }

  lemma SecondMovesOn(a: End, b: End, read: nat)
    ensures Advance(Pair(a, b), 0, 1, read) == Pair(a, b.(read := read))
  {
    assert Advance(Pair(a, b), 0, 1, read).cur == Pair(a, b.(read := read)).cur;
  }

  /** What an end becomes when `input` happens to it. */
  function Next(a: End, input: Input): End {
    Grown(a, React(a.server, input), if input.InMsg? then a.read + 1 else a.read)
  }

  /** `input` can happen to an end whose peer is at the other end. */
  predicate Can(me: End, other: End, peer: Sid, input: Input) {
    match input
    case InBegin(_, _, peers, _) => peers == {peer}
    case InMsg(from, msg, _, _) => from == peer && me.read < |other.log| && msg == other.log[me.read]
    case InTimer(_) => me.server.armed
    case InGone(x, at, _) => x == peer && at == me.read
    case _ => false
  }

  lemma DoFirst(a: End, b: End, input: Input)
    requires WF(Pair(a, b)) && Enabled(Pair(a, b), Act(0, input)) && (input.InMsg? ==> input.from == 1)
    ensures Do(Pair(a, b), Act(0, input)) == Pair(Next(a, input), b)
  {
    var a' := if input.InMsg? then a.(read := a.read + 1) else a;
    FirstMovesOn(a, b, a.read + 1);
    FirstGrows(a', b, React(a.server, input));
  }

  lemma DoSecond(a: End, b: End, input: Input)
    requires WF(Pair(a, b)) && Enabled(Pair(a, b), Act(1, input)) && (input.InMsg? ==> input.from == 0)
    ensures Do(Pair(a, b), Act(1, input)) == Pair(a, Next(b, input))
  {
    var b' := if input.InMsg? then b.(read := b.read + 1) else b;
    SecondMovesOn(a, b, b.read + 1);
    SecondGrows(a, b', React(b.server, input));
  }

  lemma PairWF(a: End, b: End)
    requires PairOk(a, b)
    ensures WF(Pair(a, b))
  {
  }

  lemma OneMore(net: Net, act: Action, rest: seq<Action>, last: Net)
    requires WF(net) && Enabled(net, act) && Run(Do(net, act), rest, last)
    ensures Run(net, [act] + rest, last)
  {
    assert ([act] + rest)[1..] == rest;
  }

  lemma FirstActs(a: End, b: End, input: Input, next: End, rest: seq<Action>, last: Net)
    requires PairOk(a, b) && Can(a, b, 1, input) && next == Next(a, input) && Run(Pair(next, b), rest, last)
    ensures Run(Pair(a, b), [Act(0, input)] + rest, last)
  {
    PairWF(a, b);
    DoFirst(a, b, input);
    OneMore(Pair(a, b), Act(0, input), rest, last);
  }

  lemma SecondActs(a: End, b: End, input: Input, next: End, rest: seq<Action>, last: Net)
    requires PairOk(a, b) && Can(b, a, 0, input) && next == Next(b, input) && Run(Pair(a, next), rest, last)
    ensures Run(Pair(a, b), [Act(1, input)] + rest, last)
  {
    PairWF(a, b);
    DoSecond(a, b, input);
    OneMore(Pair(a, b), Act(1, input), rest, last);
  }

  /** One step at each end. */
  lemma BothAct(a: End, b: End, i: Input, j: Input, a1: End, b1: End, rest: seq<Action>, last: Net)
    requires PairOk(a, b) && Can(a, b, 1, i) && a1 == Next(a, i) && PairOk(a1, b)
    requires Can(b, a1, 0, j) && b1 == Next(b, j) && Run(Pair(a1, b1), rest, last)
    ensures Run(Pair(a, b), [Act(0, i)] + ([Act(1, j)] + rest), last)
  {
    SecondActs(a1, b, j, b1, rest, last);
    FirstActs(a, b, i, a1, [Act(1, j)] + rest, last);
  }

  function Fresh(self: Sid, modules: ModuleSet): End {
    End(Server(self, true, modules, 0, None, None, [], {}, false), [], 0, [])
  }

  const TX := TxId(0, 1)
  const YES := Attempt(true, Some(7))

  const LOADED: ModuleSet := map["m" := 7]
  const ASKING: End :=
    End(Server(0, true, LOADED, 1, Some(Coordinating(TX, Load, "m", {1}, false)),
               Some(Participating(TX, Load, "m", true, 0)), [], {}, true),
        [Prepare(TX, Load, "m")], 0, [Began(TX, {1}), Prepared(TX, Load, "m", map[], LOADED)])
  const PREPARED: End :=
    End(Server(1, true, LOADED, 0, None, Some(Participating(TX, Load, "m", true, 0)), [], {}, true),
        [Ready(0, TX)], 1, [Prepared(TX, Load, "m", map[], LOADED)])
  const UNDONE: End :=
    End(Server(1, true, map[], 0, None, None, [], {}, false), [Ready(0, TX)], 1,
        [Prepared(TX, Load, "m", map[], LOADED), Settled(TX, false, Deadline, map[], true)])

  const APPLIED: End :=
    End(Server(0, true, LOADED, 1, None, None, [], {}, false), [Prepare(TX, Load, "m"), Commit(TX)], 1,
        [Began(TX, {1}), Prepared(TX, Load, "m", map[], LOADED), Settled(TX, true, Told, LOADED, true)])

  lemma DeadlineSteps()
    ensures Next(Fresh(0, map[]), InBegin(Load, "m", {1}, YES)) == ASKING
    ensures Next(Fresh(1, map[]), InMsg(0, Prepare(TX, Load, "m"), YES, false)) == PREPARED
    ensures Next(PREPARED, InTimer(true)) == UNDONE
    ensures Next(ASKING, InMsg(1, Ready(0, TX), YES, false)) == APPLIED
  {
    assert LOADED - {"m"} == map[];
  }

  lemma FirstHalf(i2: Input, i3: Input, net: Net)
    requires i2 == InTimer(true) && i3 == InMsg(1, Ready(0, TX), YES, false)
    requires net == Pair(APPLIED, UNDONE)
    ensures Run(Pair(ASKING, PREPARED), [Act(1, i2)] + ([Act(0, i3)] + []), net)
  {
    DeadlineSteps();
    FirstActs(ASKING, UNDONE, i3, APPLIED, [], net);
    SecondActs(ASKING, PREPARED, i2, UNDONE, [Act(0, i3)] + [], net);
  }

  lemma SecondHalf(i0: Input, i1: Input, rest: seq<Action>, net: Net)
    requires i0 == InBegin(Load, "m", {1}, YES) && i1 == InMsg(0, Prepare(TX, Load, "m"), YES, false)
    requires Run(Pair(ASKING, PREPARED), rest, net)
    ensures Run(Pair(Fresh(0, map[]), Fresh(1, map[])), [Act(0, i0)] + ([Act(1, i1)] + rest), net)
  {
    DeadlineSteps();
    BothAct(Fresh(0, map[]), Fresh(1, map[]), i0, i1, ASKING, PREPARED, rest, net);
  }

  lemma FreshPair(a: ModuleSet, b: ModuleSet)
    ensures Initial(Pair(Fresh(0, a), Fresh(1, b)))
  {
    PairWF(Fresh(0, a), Fresh(1, b));
  }

  lemma DeadlineRun() returns (acts: seq<Action>)
    ensures Run(Pair(Fresh(0, map[]), Fresh(1, map[])), acts, Pair(APPLIED, UNDONE))
  {
    var i0, i1, i2, i3 := InBegin(Load, "m", {1}, YES), InMsg(0, Prepare(TX, Load, "m"), YES, false), InTimer(true),
      InMsg(1, Ready(0, TX), YES, false);
    var rest := [Act(1, i2)] + ([Act(0, i3)] + []);
    FirstHalf(i2, i3, Pair(APPLIED, UNDONE));
    SecondHalf(i0, i1, rest, Pair(APPLIED, UNDONE));
    acts := [Act(0, i0)] + ([Act(1, i1)] + rest);
  }

  lemma Reaches(start: Net, acts: seq<Action>, net: Net)
    requires Initial(start) && Run(start, acts, net)
    ensures Reachable(net)
  {
  }

  /** A participant whose own deadline passes after it said READY undoes a load
      that the coordinator then commits. */
  lemma DeadlineSplits()
    ensures Reachable(Pair(APPLIED, UNDONE)) && APPLIED.server.modules == map["m" := 7]
        && UNDONE.server.modules == map[]
  {
    var acts := DeadlineRun();
    FreshPair(map[], map[]);
    Reaches(Pair(Fresh(0, map[]), Fresh(1, map[])), acts, Pair(APPLIED, UNDONE));
  }

  // ----- a link that stays up between different sets -----

  const BOTH: ModuleSet := map["m" := 7]

  /** One end of the link right after it came up, then after one and two reads. */
  function JustLinked(self: Sid, peer: Sid): End {
    End(Server(self, true, BOTH, 0, None, None, [peer], {}, false), [Announce(peer, BOTH), EndOfBurst(peer)], 0,
      [LinkUp(peer)])
  }

  function Compared(self: Sid, peer: Sid, read: nat): End {
    End(Server(self, true, BOTH, 0, None, None, [peer], {peer}, false), [Announce(peer, BOTH), EndOfBurst(peer)], read,
        [LinkUp(peer)])
  }

  const LOST: End :=
    End(Server(0, true, map[], 1, None, None, [1], {1}, false), [Announce(1, BOTH), EndOfBurst(1)], 2,
        [LinkUp(1), Refused(TX, Reload, "m", BOTH, map[], true, true)])

  const NO_LOAD := Attempt(true, None)

  lemma LinkSteps(self: Sid, peer: Sid)
    ensures Next(Fresh(self, BOTH), InLink(peer)) == JustLinked(self, peer)
    ensures Next(JustLinked(self, peer), InMsg(peer, Announce(self, BOTH), YES, false)) == Compared(self, peer, 1)
    ensures Next(Compared(self, peer, 1), InMsg(peer, EndOfBurst(self), YES, false)) == Compared(self, peer, 2)
    ensures Next(Compared(0, 1, 2), InBegin(Reload, "m", {1}, NO_LOAD)) == LOST
  {
    assert BOTH - {"m"} == map[];
  }

  lemma FirstLinks(a: End, b: End, e: Effect)
    requires PairOk(a, b) && e == React(a.server, InLink(1)) && WF(Pair(a, b))
    ensures Happen(Pair(a, b), 0, InLink(1)) == Pair(Grown(a, e, a.read), b)
  {
    FirstGrows(a, b, e);
  }

  lemma SecondLinks(a: End, b: End, e: Effect)
    requires PairOk(a, b) && e == React(b.server, InLink(0)) && WF(Pair(a, b))
    ensures Happen(Pair(a, b), 1, InLink(0)) == Pair(a, Grown(b, e, b.read))
  {
    SecondGrows(a, b, e);
  }

  /** A link comes up between ends that have read all there is. */
  lemma LinkBoth(a: End, b: End, a1: End, b1: End)
    requires PairOk(a, b) && a.read == |b.log| && b.read == |a.log| && a.server.down == b.server.down == []
    requires !Depends(a.server, 1) && !Depends(b.server, 0)
    requires a1 == Next(a, InLink(1)) && b1 == Next(b, InLink(0)) && PairOk(a1, b)
    ensures WF(Pair(a, b)) && Enabled(Pair(a, b), Link(0, 1)) && Do(Pair(a, b), Link(0, 1)) == Pair(a1, b1)
  {
    var net := Pair(a, b);
    PairWF(a, b);
    PairWF(a1, b);
    FirstLinks(a, b, React(a.server, InLink(1)));
    SecondLinks(a1, b, React(b.server, InLink(0)));
    assert Advance(Advance(net, 0, 1, |a.log|), 1, 0, |b.log|).cur == net.cur;
    assert Advance(Advance(net, 0, 1, |net.log[0]|), 1, 0, |net.log[1]|) == net;
  }

  lemma BothLink()
    ensures var net := Pair(Fresh(0, BOTH), Fresh(1, BOTH));
            && WF(net) && Enabled(net, Link(0, 1))
            && Do(net, Link(0, 1)) == Pair(JustLinked(0, 1), JustLinked(1, 0))
  {
    LinkSteps(0, 1);
    LinkSteps(1, 0);
    LinkBoth(Fresh(0, BOTH), Fresh(1, BOTH), JustLinked(0, 1), JustLinked(1, 0));
  }

  lemma DoLink(rest: seq<Action>, last: Net)
    requires Run(Pair(JustLinked(0, 1), JustLinked(1, 0)), rest, last)
    ensures Run(Pair(Fresh(0, BOTH), Fresh(1, BOTH)), [Link(0, 1)] + rest, last)
  {
    BothLink();
    OneMore(Pair(Fresh(0, BOTH), Fresh(1, BOTH)), Link(0, 1), rest, last);
  }

  lemma FirstReads(b: End, rest: seq<Action>, last: Net) returns (acts: seq<Action>)
    requires PairOk(JustLinked(0, 1), b) && b.log == JustLinked(1, 0).log && b.read <= 2
    requires Run(Pair(Compared(0, 1, 2), b), rest, last)
    ensures Run(Pair(JustLinked(0, 1), b), acts, last)
  {
    LinkSteps(0, 1);
    var i, i' := InMsg(1, Announce(0, BOTH), YES, false), InMsg(1, EndOfBurst(0), YES, false);
    FirstActs(Compared(0, 1, 1), b, i', Compared(0, 1, 2), rest, last);
    FirstActs(JustLinked(0, 1), b, i, Compared(0, 1, 1), [Act(0, i')] + rest, last);
    acts := [Act(0, i)] + ([Act(0, i')] + rest);
  }

  lemma SecondReads(a: End, rest: seq<Action>, last: Net) returns (acts: seq<Action>)
    requires PairOk(a, JustLinked(1, 0)) && a.log == JustLinked(0, 1).log && a.read <= 2
    requires Run(Pair(a, Compared(1, 0, 2)), rest, last)
    ensures Run(Pair(a, JustLinked(1, 0)), acts, last)
  {
    LinkSteps(1, 0);
    var i, i' := InMsg(0, Announce(1, BOTH), YES, false), InMsg(0, EndOfBurst(1), YES, false);
    SecondActs(a, Compared(1, 0, 1), i', Compared(1, 0, 2), rest, last);
    SecondActs(a, JustLinked(1, 0), i, Compared(1, 0, 1), [Act(1, i')] + rest, last);
    acts := [Act(1, i)] + ([Act(1, i')] + rest);
  }

  lemma ReloadRun() returns (acts: seq<Action>)
    ensures Run(Pair(Fresh(0, BOTH), Fresh(1, BOTH)), acts, Pair(LOST, Compared(1, 0, 2)))
  {
    var last := Pair(LOST, Compared(1, 0, 2));
    var a, b, input := Compared(0, 1, 2), Compared(1, 0, 2), InBegin(Reload, "m", {1}, NO_LOAD);
    LinkSteps(0, 1);
    FirstActs(a, b, input, LOST, [], last);
    acts := SecondReads(a, [Act(0, input)] + [], last);
    acts := FirstReads(JustLinked(1, 0), acts, last);
    DoLink(acts, last);
    acts := [Link(0, 1)] + acts;
  }

  /** A reload that fails half-way on the server it was asked of loses the
      module there and tells nobody: the link stays up, both ends have compared
      and matched, nothing is under way, and the sets differ. */
  lemma ReloadSplits()
    ensures var net := Pair(LOST, Compared(1, 0, 2));
            && Reachable(net) && Linked(net, 0, 1) && Quiet(net, 0, 1)
            && net.srv[0].sync && net.srv[1].sync && net.srv[0].modules != net.srv[1].modules
  {
    var acts := ReloadRun();
    FreshPair(BOTH, BOTH);
    Reaches(Pair(Fresh(0, BOTH), Fresh(1, BOTH)), acts, Pair(LOST, Compared(1, 0, 2)));
    assert "m" in BOTH;
  }

  // ----- a participant that is cut off -----

  const CUT: End :=
    End(Server(1, true, map[], 0, None, None, [], {}, false), [Ready(0, TX)], 1,
        [Prepared(TX, Load, "m", map[], LOADED), Settled(TX, false, CoordinatorLost(1), map[], true)])

  lemma CutHalf(i2: Input, i3: Input, net: Net)
    requires i2 == InMsg(1, Ready(0, TX), YES, false) && i3 == InGone(0, 1, true) && net == Pair(APPLIED, CUT)
    ensures Run(Pair(ASKING, PREPARED), [Act(0, i2)] + ([Act(1, i3)] + []), net)
  {
    DeadlineSteps();
    assert LOADED - {"m"} == map[];
    BothAct(ASKING, PREPARED, i2, i3, APPLIED, CUT, [], net);
  }

  /** A participant that loses the coordinator between its READY and the
      COMMIT undoes a load that the coordinator has applied. */
  lemma CutOffSplits()
    ensures Reachable(Pair(APPLIED, CUT)) && APPLIED.server.modules == map["m" := 7] && CUT.server.modules == map[]
  {
    var i0, i1 := InBegin(Load, "m", {1}, YES), InMsg(0, Prepare(TX, Load, "m"), YES, false);
    var i2, i3 := InMsg(1, Ready(0, TX), YES, false), InGone(0, 1, true);
    var net, rest := Pair(APPLIED, CUT), [Act(0, i2)] + ([Act(1, i3)] + []);
    CutHalf(i2, i3, net);
    SecondHalf(i0, i1, rest, net);
    FreshPair(map[], map[]);
    Reaches(Pair(Fresh(0, map[]), Fresh(1, map[])), [Act(0, i0)] + ([Act(1, i1)] + rest), net);
  }

  // ----- an abandoned reload that is not gone everywhere -----

  const NEWER := Attempt(true, Some(8))
  const STUCK := Attempt(false, None)
  const RENEWED: ModuleSet := map["m" := 8]

  const RELOADING: End :=
    End(Server(0, true, RENEWED, 1, Some(Coordinating(TX, Reload, "m", {1}, false)),
               Some(Participating(TX, Reload, "m", true, 0)), [], {}, true),
        [Prepare(TX, Reload, "m")], 0, [Began(TX, {1}), Prepared(TX, Reload, "m", BOTH, RENEWED)])

  /** It could not take the module out, so it said FAILED and kept it. */
  function Keeping(read: nat): End {
    End(Server(1, true, BOTH, 0, None, None, [], {}, false), [Failed(0, TX)], read,
        [Refused(TX, Reload, "m", BOTH, BOTH, true, false)])
  }

  const ABANDONED: End :=
    End(Server(0, true, map[], 1, None, None, [], {}, false), [Prepare(TX, Reload, "m"), Abort(TX)], 1,
        [Began(TX, {1}), Prepared(TX, Reload, "m", BOTH, RENEWED), Settled(TX, false, Told, map[], true)])

  lemma ReloadSteps()
    ensures Next(Fresh(0, BOTH), InBegin(Reload, "m", {1}, NEWER)) == RELOADING
    ensures Next(Fresh(1, BOTH), InMsg(0, Prepare(TX, Reload, "m"), STUCK, false)) == Keeping(1)
    ensures Next(RELOADING, InMsg(1, Failed(0, TX), YES, false)) == ABANDONED
    ensures Next(Keeping(1), InMsg(0, Abort(TX), YES, false)) == Keeping(2)
  {
    assert BOTH["m" := 8] == RENEWED && RENEWED - {"m"} == map[];
  }

  lemma KeptRun() returns (acts: seq<Action>)
    ensures Run(Pair(Fresh(0, BOTH), Fresh(1, BOTH)), acts, Pair(ABANDONED, Keeping(2)))
  {
    var net := Pair(ABANDONED, Keeping(2));
    var i0, i1 := InBegin(Reload, "m", {1}, NEWER), InMsg(0, Prepare(TX, Reload, "m"), STUCK, false);
    var i2, i3 := InMsg(1, Failed(0, TX), YES, false), InMsg(0, Abort(TX), YES, false);
    acts := [Act(0, i2)] + ([Act(1, i3)] + []);
    ReloadSteps();
    BothAct(RELOADING, Keeping(1), i2, i3, ABANDONED, Keeping(2), [], net);
    BothAct(Fresh(0, BOTH), Fresh(1, BOTH), i0, i1, RELOADING, Keeping(1), acts, net);
    acts := [Act(0, i0)] + ([Act(1, i1)] + acts);
  }

  lemma KeptReached()
    ensures Reachable(Pair(ABANDONED, Keeping(2)))
  {
    var acts := KeptRun();
    FreshPair(BOTH, BOTH);
    Reaches(Pair(Fresh(0, BOTH), Fresh(1, BOTH)), acts, Pair(ABANDONED, Keeping(2)));
  }

  /** A reload abandoned because one server could not take the old module out:
      everyone has read the ABORT, the module is gone from the server that
      asked, and it still runs on the one that refused. */
  lemma ReloadStays()
    ensures var net := Pair(ABANDONED, Keeping(2));
            && Reachable(net) && WF(net) && Reloads(net, 0, TX, "m") && ReadAbort(net, 0, 1, TX)
            && "m" !in net.srv[0].modules && "m" in net.srv[1].modules
  {
    var net := Pair(ABANDONED, Keeping(2));
    KeptReached();
    PairWF(ABANDONED, Keeping(2));
    assert net.log[0][0] == Prepare(TX, Reload, "m") && net.log[0][..2][1] == Abort(TX);
  }

  // ----- a peer that never announces and is never refused -----

  const OTHER: ModuleSet := map["x" := 1]

  /** Server 1 does not keep the rule; `down`, what it has sent and read. */
  function Mute(down: seq<Sid>, log: seq<Msg>, read: nat, hist: seq<Note>): End {
    End(Server(1, false, OTHER, 0, None, None, down, {}, false), log, read, hist)
  }

  const HELLO: seq<Msg> := [Announce(1, map[]), EndOfBurst(1)]

  const MET: End := End(Server(0, true, map[], 0, None, None, [1], {}, false), HELLO, 0, [LinkUp(1)])

  /** Server 0 while it coordinates the load of "m". */
  function Asked1(read: nat, hist: seq<Note>): End {
    End(Server(0, true, LOADED, 1, Some(Coordinating(TX, Load, "m", {1}, false)),
               Some(Participating(TX, Load, "m", true, 0)), [1], {}, true),
        HELLO + [Prepare(TX, Load, "m")], read, hist)
  }

  const BEGUN: seq<Note> := [LinkUp(1), Began(TX, {1}), Prepared(TX, Load, "m", map[], LOADED)]
  const PASSED: seq<Note> := BEGUN + [Excused(1, false)]
  const SENT: seq<Msg> := HELLO + [Prepare(TX, Load, "m")] + [Abort(TX), Announce(1, map[])]

  /** And after its deadline. */
  function GaveUp(read: nat): End {
    End(Server(0, true, map[], 1, None, None, [1], {}, false), SENT, read,
        PASSED + [Settled(TX, false, Told, map[], true)])
  }

  const MUTE0: End := Mute([0], [EndOfBurst(0)], 0, [LinkUp(0)])

  /** Server 1 once it has refused the load. */
  function Refusing(read: nat): End {
    Mute([0], [EndOfBurst(0), Failed(0, TX)], read, [LinkUp(0), Refused(TX, Load, "m", OTHER, OTHER, false, true)])
  }

  lemma MuteSteps()
    ensures Next(Fresh(0, map[]), InLink(1)) == MET
    ensures Next(Mute([], [], 0, []), InLink(0)) == MUTE0
    ensures Next(MET, InBegin(Load, "m", {1}, YES)) == Asked1(0, BEGUN)
    ensures Next(Asked1(0, BEGUN), InMsg(1, EndOfBurst(0), YES, false)) == Asked1(1, PASSED)
    ensures Next(Asked1(1, PASSED), InTimer(true)) == GaveUp(1)
    ensures Next(GaveUp(1), InMsg(1, Failed(0, TX), YES, false)) == GaveUp(2)
  {
    assert LOADED - {"m"} == map[];
    OnlyAnnouncements([1], map[]);
    assert AnnounceAll([1], map[]) == [Announce(1, map[])];
  }

  /** What server 1 makes of the five lines it is sent. */
  lemma MuteReads(m: Msg, read: nat)
    requires m.Announce? || m.EndOfBurst? || m.Abort?
    ensures Next(Mute([0], [EndOfBurst(0)], read, [LinkUp(0)]), InMsg(0, m, YES, false))
         == Mute([0], [EndOfBurst(0)], read + 1, [LinkUp(0)])
    ensures Next(Refusing(read), InMsg(0, m, YES, false)) == Refusing(read + 1)
  {
  }

  lemma MuteRefuses()
    ensures Next(Mute([0], [EndOfBurst(0)], 2, [LinkUp(0)]), InMsg(0, Prepare(TX, Load, "m"), YES, false))
        == Refusing(3)
  {
  }

  lemma MuteLinks(a0: End, b0: End, net: Net)
    requires a0 == Fresh(0, map[]) && b0 == Mute([], [], 0, []) && net == Pair(a0, b0)
    ensures WF(net) && Enabled(net, Link(0, 1)) && Do(net, Link(0, 1)) == Pair(MET, MUTE0)
  {
    MuteSteps();
    LinkBoth(a0, b0, MET, MUTE0);
  }

  lemma MuteMeets(a0: End, b0: End, net: Net, rest: seq<Action>, last: Net)
    requires a0 == Fresh(0, map[]) && b0 == Mute([], [], 0, []) && net == Pair(a0, b0)
    requires Run(Pair(MET, MUTE0), rest, last)
    ensures Run(net, [Link(0, 1)] + rest, last)
  {
    MuteLinks(a0, b0, net);
    OneMore(net, Link(0, 1), rest, last);
  }

  /** Server 0 begins, reads the end of the burst, and gives up. */
  lemma Distracted(rest: seq<Action>, last: Net) returns (acts: seq<Action>)
    requires Run(Pair(GaveUp(1), MUTE0), rest, last)
    ensures Run(Pair(MET, MUTE0), acts, last)
  {
    MuteSteps();
    acts := rest;
    FirstActs(Asked1(1, PASSED), MUTE0, InTimer(true), GaveUp(1), acts, last);
    acts := [Act(0, InTimer(true))] + acts;
    var input := InMsg(1, EndOfBurst(0), YES, false);
    FirstActs(Asked1(0, BEGUN), MUTE0, input, Asked1(1, PASSED), acts, last);
    acts := [Act(0, input)] + acts;
    FirstActs(MET, MUTE0, InBegin(Load, "m", {1}, YES), Asked1(0, BEGUN), acts, last);
    acts := [Act(0, InBegin(Load, "m", {1}, YES))] + acts;
  }

  lemma MuteReadsOne(a: End, b: End, b': End, m: Msg, rest: seq<Action>, last: Net) returns (acts: seq<Action>)
    requires PairOk(a, b) && b.read < |a.log| && a.log[b.read] == m
    requires Next(b, InMsg(0, m, YES, false)) == b' && Run(Pair(a, b'), rest, last)
    ensures Run(Pair(a, b), acts, last)
  {
    SecondActs(a, b, InMsg(0, m, YES, false), b', rest, last);
    acts := [Act(1, InMsg(0, m, YES, false))] + rest;
  }

  /** The lines of server 0. */
  predicate Speaks(a: End) {
    && a.server.self == 0 && a.read <= 1 && |a.log| == 5
    && a.log[0] == Announce(1, map[]) && a.log[1] == EndOfBurst(1) && a.log[2] == Prepare(TX, Load, "m")
    && a.log[3] == Abort(TX) && a.log[4] == Announce(1, map[])
  }

  /** Server 1 reads everything, and server 0 its refusal. */
  lemma EverythingRead(last: Net) returns (acts: seq<Action>)
    requires last == Pair(GaveUp(2), Refusing(5))
    ensures Run(Pair(GaveUp(1), MUTE0), acts, last)
  {
    var a := GaveUp(1);
    MuteSteps();
    FirstActs(a, Refusing(5), InMsg(1, Failed(0, TX), YES, false), GaveUp(2), [], last);
    acts := LinesRead(a, [Act(0, InMsg(1, Failed(0, TX), YES, false))] + [], last);
  }

  lemma LinesRead(a: End, rest: seq<Action>, last: Net) returns (acts: seq<Action>)
    requires Speaks(a) && Run(Pair(a, Refusing(5)), rest, last)
    ensures Run(Pair(a, MUTE0), acts, last)
  {
    acts := LastLinesRead(a, rest, last);
    acts := FirstLinesRead(a, acts, last);
  }

  lemma LastLinesRead(a: End, rest: seq<Action>, last: Net) returns (acts: seq<Action>)
    requires Speaks(a) && Run(Pair(a, Refusing(5)), rest, last)
    ensures Run(Pair(a, Refusing(3)), acts, last)
  {
    MuteReads(Announce(1, map[]), 4);
    acts := MuteReadsOne(a, Refusing(4), Refusing(5), Announce(1, map[]), rest, last);
    MuteReads(Abort(TX), 3);
    acts := MuteReadsOne(a, Refusing(3), Refusing(4), Abort(TX), acts, last);
  }

  lemma FirstLinesRead(a: End, rest: seq<Action>, last: Net) returns (acts: seq<Action>)
    requires Speaks(a) && Run(Pair(a, Refusing(3)), rest, last)
    ensures Run(Pair(a, MUTE0), acts, last)
  {
    var b1, b2 := Mute([0], [EndOfBurst(0)], 1, [LinkUp(0)]), Mute([0], [EndOfBurst(0)], 2, [LinkUp(0)]);
    acts := PrepareRead(a, b2, rest, last);
    acts := BurstRead(a, b1, b2, acts, last);
  }

  lemma PrepareRead(a: End, b2: End, rest: seq<Action>, last: Net) returns (acts: seq<Action>)
    requires Speaks(a) && b2 == Mute([0], [EndOfBurst(0)], 2, [LinkUp(0)])
    requires Run(Pair(a, Refusing(3)), rest, last)
    ensures Run(Pair(a, b2), acts, last)
  {
    MuteRefuses();
    acts := MuteReadsOne(a, b2, Refusing(3), Prepare(TX, Load, "m"), rest, last);
  }

  lemma BurstRead(a: End, b1: End, b2: End, rest: seq<Action>, last: Net) returns (acts: seq<Action>)
    requires Speaks(a) && Run(Pair(a, b2), rest, last)
    requires b1 == Mute([0], [EndOfBurst(0)], 1, [LinkUp(0)]) && b2 == Mute([0], [EndOfBurst(0)], 2, [LinkUp(0)])
    ensures Run(Pair(a, MUTE0), acts, last)
  {
    MuteReads(EndOfBurst(1), 1);
    acts := MuteReadsOne(a, b1, b2, EndOfBurst(1), rest, last);
    acts := AnnounceRead(a, b1, acts, last);
  }

  lemma AnnounceRead(a: End, b1: End, rest: seq<Action>, last: Net) returns (acts: seq<Action>)
    requires Speaks(a) && b1 == Mute([0], [EndOfBurst(0)], 1, [LinkUp(0)]) && Run(Pair(a, b1), rest, last)
    ensures Run(Pair(a, MUTE0), acts, last)
  {
    MuteReads(Announce(1, map[]), 0);
    acts := MuteReadsOne(a, MUTE0, b1, Announce(1, map[]), rest, last);
  }

  lemma UncomparedRun(a0: End, b0: End, last: Net) returns (acts: seq<Action>)
    requires a0 == Fresh(0, map[]) && b0 == Mute([], [], 0, []) && last == Pair(GaveUp(2), Refusing(5))
    ensures Run(Pair(a0, b0), acts, last)
  {
    acts := EverythingRead(last);
    acts := Distracted(acts, last);
    MuteMeets(a0, b0, Pair(a0, b0), acts, last);
    acts := [Link(0, 1)] + acts;
  }

  lemma UncomparedReached(a0: End, b0: End, last: Net)
    requires a0 == Fresh(0, map[]) && b0 == Mute([], [], 0, []) && last == Pair(GaveUp(2), Refusing(5))
    ensures Reachable(last)
  {
    var acts := UncomparedRun(a0, b0, last);
    PairWF(a0, b0);
    Reaches(Pair(a0, b0), acts, last);
  }

  /** A peer that never announces, whose burst ends while a transaction is
      under way: afterwards the link is up and quiet, the peer was never
      compared, is no service, and runs something else. */
  lemma UncomparedStays()
    ensures var net := Pair(GaveUp(2), Refusing(5));
            && Reachable(net) && Linked(net, 0, 1) && Quiet(net, 0, 1) && net.srv[0].sync
            && 1 !in net.srv[0].checked && Excused(1, false) in net.hist[0]
            && net.srv[0].modules != net.srv[1].modules
  {
    var net := Pair(GaveUp(2), Refusing(5));
    UncomparedReached(Fresh(0, map[]), Mute([], [], 0, []), net);
    assert "x" in OTHER;
    assert net.hist[0][3] == Excused(1, false);
  }
}
