/** What must happen to a transaction, over every run: who can take part says
    so, and once everyone asked has, it is committed. */
module ModuleSyncProgress {
  import opened Options
  import opened ModuleSync
  import opened ModuleSyncSteps
  import opened ModuleSyncNet
  import opened ModuleSyncCommit
  import opened ModuleSyncOnce
  import opened ModuleSyncEffects
  import opened ModuleSyncTheorems
  import opened ModuleSyncAborts

  // ----- who can take part -----

  /** A load needs the module absent and a loader that can; an unload needs it
      present; a reload needs it present, and a loader that lets it go and can
      load it again. */
  predicate Can(modules: ModuleSet, op: Op, name: string, att: Attempt) {
    match op
    case Load => name !in modules && att.loads.Some?
    case Unload => name in modules
    case Reload => name in modules && att.unloads && att.loads.Some?
  }

  predicate Free(s: Server) { s.sync && s.coord.None? && s.part.None? }

  /** What a server runs after it was asked: the new version if it can take
      part and something is loaded; without the module if a reload took it out
      and could not put it back. */
  function SetAfter(s: Server, op: Op, name: string, att: Attempt): ModuleSet {
    if !Free(s) then s.modules
    else if Can(s.modules, op, name, att) then
      (if op == Unload then s.modules else s.modules[name := att.loads.value])
    else if op == Reload && att.unloads then s.modules - {name}
    else s.modules
  }

  /** A server answers PREPARE at once, and to whoever asked: READY if and only
      if it keeps the rule, has nothing else under way and can do it. */
  lemma ReadyIff(net: Net, i: Sid, from: Sid, tx: TxId, op: Op, name: string, att: Attempt, service: bool)
    requires WF(net) && i in net.srv && Fits(net, i, InMsg(from, Prepare(tx, op, name), att, service))
    ensures var s, net' := net.srv[i], Happen(net, i, InMsg(from, Prepare(tx, op, name), att, service));
            var yes := Free(s) && Can(s.modules, op, name, att);
            && net'.log[i] == net.log[i] + [if yes then Ready(from, tx) else Failed(from, tx)]
            && net'.srv[i].modules == SetAfter(s, op, name, att)
            && (yes ==> net'.srv[i].part.Some? && net'.srv[i].part.value.tx == tx)
            && (!yes ==> net'.srv[i].part == s.part)
  {
    var s := net.srv[i];
    if op == Reload && name !in s.modules { assert s.modules - {name} == s.modules; }
  }

  /** A transaction is begun, and everyone asked, if and only if the server
      that is to begin it keeps the rule, has nothing else under way and can do
      it itself. */
  lemma BeginsIff(net: Net, i: Sid, op: Op, name: string, peers: set<Sid>, att: Attempt)
    requires WF(net) && i in net.srv && Fits(net, i, InBegin(op, name, peers, att)) && LocalOk(net.srv[i])
    ensures var s, net' := net.srv[i], Happen(net, i, InBegin(op, name, peers, att));
            var tx := TxId(i, s.serial + 1);
            && |net.log[i]| <= |net'.log[i]| && |net.hist[i]| <= |net'.hist[i]|
            && var out, notes := net'.log[i][|net.log[i]|..], net'.hist[i][|net.hist[i]|..];
            if Free(s) && Can(s.modules, op, name, att) then
              && out != [] && out[0] == Prepare(tx, op, name)
              && Began(tx, peers) in notes && (peers != {} ==> out == [Prepare(tx, op, name)])
              && (peers == {} ==> Commit(tx) in out)
            else out == [] && net'.srv[i].modules == SetAfter(s, op, name, att) && forall n :: n in notes ==> !n.Began?
  {
    var s, input := net.srv[i], InBegin(op, name, peers, att);
    var e, net' := Begin(s, op, name, peers, att), Happen(net, i, input);
    assert net'.log[i][|net.log[i]|..] == e.out && net'.hist[i][|net.hist[i]|..] == e.notes;
    if op == Reload && name !in s.modules { assert s.modules - {name} == s.modules; }
    if Free(s) && Can(s.modules, op, name, att) {
      BeginAsks(s, op, name, peers, att);
    }
  }

  lemma BeginAsks(s: Server, op: Op, name: string, peers: set<Sid>, att: Attempt)
    requires Free(s) && Can(s.modules, op, name, att)
    ensures var e, tx := Begin(s, op, name, peers, att), TxId(s.self, s.serial + 1);
            && e.out != [] && e.out[0] == Prepare(tx, op, name) && Began(tx, peers) in e.notes
            && (peers != {} ==> e.out == [Prepare(tx, op, name)] && e.server.coord.Some?
                                && e.server.coord.value == Coordinating(tx, op, name, peers, false))
            && (peers == {} ==> Commit(tx) in e.out && Abort(tx) !in e.out && e.server.coord.None?)
  {
    var e, tx := Begin(s, op, name, peers, att), TxId(s.self, s.serial + 1);
    var prep := PrepareHere(s.modules, op, name, att);
    assert e.notes[0] == Began(tx, peers);
    if peers == {} {
      var s2 := s.(serial := s.serial + 1, modules := prep.modules,
                   coord := Some(Coordinating(tx, op, name, peers, false)),
                   part := Some(Participating(tx, op, name, prep.undoLoad, s.self)));
      FinishFacts(s2, true, att.unloads);
      assert e.out == [Prepare(tx, op, name)] + FinishCoord(s2, true, att.unloads).out;
      assert e.out[1] == Commit(tx);
    }
  }

  /** A peer's announcement drops the link if and only if the server keeps the
      rule, has no transaction under way and runs another set; and it counts as
      compared if and only if it runs the same.  In the middle of a transaction
      it says nothing. */
  lemma AnnouncedIff(net: Net, i: Sid, from: Sid, digest: ModuleSet, att: Attempt, service: bool)
    requires WF(net) && i in net.srv && Fits(net, i, InMsg(from, Announce(i, digest), att, service))
    requires from in net.srv[i].down
    ensures var s, s' := net.srv[i], Happen(net, i, InMsg(from, Announce(i, digest), att, service)).srv[i];
            && (from in s'.down <==> !(Free(s) && digest != s.modules))
            && (from in s'.checked <==> if Free(s) then digest == s.modules else from in s.checked)
            && (forall q :: q != from ==> (q in s'.down <==> q in s.down) && (q in s'.checked <==> q in s.checked))
            && s' == s.(down := s'.down, checked := s'.checked)
  {
    WithoutIs(net.srv[i].down, from);
  }

  /** The end of a peer's burst drops the link if and only if the server keeps
      the rule, has no transaction under way, has not compared the peer's set,
      and the peer is no service. */
  lemma BurstEndIff(net: Net, i: Sid, from: Sid, att: Attempt, service: bool)
    requires WF(net) && i in net.srv && Fits(net, i, InMsg(from, EndOfBurst(i), att, service))
    requires from in net.srv[i].down
    ensures var s, s' := net.srv[i], Happen(net, i, InMsg(from, EndOfBurst(i), att, service)).srv[i];
            && (from in s'.down <==> !Free(s) || from in s.checked || service)
            && (forall q :: q != from ==> (q in s'.down <==> q in s.down) && (q in s'.checked <==> q in s.checked))
            && s' == s.(down := s'.down, checked := s'.checked)
  {
    WithoutIs(net.srv[i].down, from);
  }

  /** What a server says of itself is heard only by the one it is for, over the
      link they have. */
  lemma OnlyOverTheLink(net: Net, i: Sid, from: Sid, msg: Msg, att: Attempt, service: bool)
    requires WF(net) && i in net.srv && Fits(net, i, InMsg(from, msg, att, service))
    requires (msg.Announce? || msg.EndOfBurst?) && !(msg.to == i && from in net.srv[i].down)
    ensures var net' := Happen(net, i, InMsg(from, msg, att, service));
            net'.srv[i] == net.srv[i] && net'.log[i] == net.log[i] && net'.hist[i] == net.hist[i]
  {
  }

  /** A new link is there at both ends, uncompared at both, and both have
      announced what they run, if they keep the rule, and then ended their
      burst; a link that is lost is gone, and forgotten. */
  lemma LinkIs(net: Net, a: Sid, b: Sid)
    requires WF(net) && Enabled(net, Link(a, b))
    ensures var net' := Do(net, Link(a, b));
            && b in net'.srv[a].down && a in net'.srv[b].down
            && b !in net'.srv[a].checked && a !in net'.srv[b].checked
            && net'.log[a] == net.log[a] + Hello(net.srv[a], b) && net'.log[b] == net.log[b] + Hello(net.srv[b], a)
            && net'.cur[(a, b)] == |net.log[a]| && net'.cur[(b, a)] == |net.log[b]|
    ensures b !in React(net.srv[a], InUnlink(b)).server.down && b !in React(net.srv[a], InUnlink(b)).server.checked
  {
    WithoutIs(net.srv[a].down, b);
  }

  function Hello(s: Server, to: Sid): seq<Msg> {
    if s.sync then [Announce(to, s.modules), EndOfBurst(to)] else [EndOfBurst(to)]
  }

  lemma {:induction false} WithoutIs(links: seq<Sid>, x: Sid)
    ensures forall q :: q in Without(links, x) <==> q in links && q != x
  {
    if links != [] { WithoutIs(links[1..], x); }
  }

  // ----- what the coordinator makes of the answers -----

  predicate Denies(input: Input, s: Server, tx: TxId) { input.InMsg? && input.msg == Failed(s.self, tx) }

  /** No answer is cut short: no deadline, and nobody it waits for leaves. */
  predicate Patient(s: Server, input: Input)
    requires s.coord.Some?
  {
    !input.InTimer? && !(input.InGone? && input.x in s.coord.value.waiting)
  }

  ghost predicate Awaits(s: Server, input: Input, s': Server)
    requires s.coord.Some?
  {
    var k := s.coord.value;
    && s'.coord.Some?
    && var k' := s'.coord.value;
    && k'.tx == k.tx && k'.waiting <= k.waiting
    && (forall p :: p in k'.waiting ==> !Answers(input, s, k.tx, p))
    && (k'.failed ==> k.failed || Denies(input, s, k.tx))
  }

  lemma AnswerFinishes(s: Server, input: Input, tx: TxId)
    requires LocalOk(s) && s.coord.Some? && s.coord.value.tx == tx
    requires input.InMsg? && (input.msg == Ready(s.self, tx) || input.msg == Failed(s.self, tx))
    ensures var e := React(s, input);
            || (Awaits(s, input, e.server) && e.out == [])
            || (&& e.server.coord.None?
                && (if s.coord.value.failed || Denies(input, s, tx) then Abort(tx) in e.out && Commit(tx) !in e.out
                    else Commit(tx) in e.out && Abort(tx) !in e.out))
  {
    var s1 := StopWaiting(if input.msg.Ready? then s else FailCoord(s), input.from);
    if s1.coord.value.waiting == {} {
      FinishFacts(s1, !s1.coord.value.failed, input.att.unloads);
      var e := React(s, input);
      assert e.out[0] in e.out;
    }
  }

  lemma OthersPass(s: Server, input: Input, tx: TxId)
    requires LocalOk(s) && InputOk(s, input) && s.coord.Some? && s.coord.value.tx == tx && Patient(s, input)
    requires input.InMsg? ==> input.msg != Ready(s.self, tx) && input.msg != Failed(s.self, tx)
    ensures React(s, input).server.coord == s.coord
    ensures Commit(tx) !in React(s, input).out && Abort(tx) !in React(s, input).out
  {
    if input.InRehash? { OnlyAnnouncements(s.down, input.modules); }
    if input.InMsg? && (input.msg.Commit? || input.msg.Abort?) && s.part.value.tx == input.msg.tx { assert false; }
  }

  /** q's lines that c has read, or has been made to skip. */
  ghost predicate Heard(net: Net, q: Sid, c: Sid, m: Msg)
    requires WF(net) && q in net.srv && c in net.srv
  {
    m in net.log[q][..net.cur[(q, c)]]
  }

  ghost predicate HeardRefusal(net: Net, c: Sid, tx: TxId)
    requires WF(net) && c in net.srv
  {
    exists q :: q in net.srv && Heard(net, q, c, Failed(c, tx))
  }

  /** Where the coordinator stands: still waiting, for nobody whose READY it
      has read; or done, and if it gave up somebody had refused. */
  ghost predicate OnCourse(net: Net, c: Sid, tx: TxId, peers: set<Sid>) {
    && WF(net) && c in net.srv && tx.origin == c && tx.serial <= net.srv[c].serial
    && (Abort(tx) in net.log[c] ==> HeardRefusal(net, c, tx))
    && if net.srv[c].coord.Some? && net.srv[c].coord.value.tx == tx then Waits(net, c, net.srv[c].coord.value, peers)
       else Commit(tx) in net.log[c] || Abort(tx) in net.log[c]
  }

  ghost predicate Waits(net: Net, c: Sid, k: Coordinating, peers: set<Sid>)
    requires WF(net) && c in net.srv
  {
    && k.waiting <= peers && (k.failed ==> HeardRefusal(net, c, k.tx))
    && forall p :: p in k.waiting ==> p in net.srv && !Heard(net, p, c, Ready(c, k.tx))
  }

  /** What has been heard stays heard. */
  ghost predicate Further(net: Net, net': Net, c: Sid)
    requires WF(net) && WF(net') && c in net.srv
  {
    && net'.srv.Keys == net.srv.Keys
    && forall q :: q in net.srv ==> net.log[q] <= net'.log[q] && net.cur[(q, c)] <= net'.cur[(q, c)]
  }

  lemma StillHeard(net: Net, net': Net, q: Sid, c: Sid, m: Msg)
    requires WF(net) && WF(net') && c in net.srv && q in net.srv && Further(net, net', c) && Heard(net, q, c, m)
    ensures Heard(net', q, c, m)
  {
    var k :| 0 <= k < net.cur[(q, c)] && net.log[q][k] == m;
    assert net'.log[q][..net'.cur[(q, c)]][k] == m;
  }

  lemma StillRefused(net: Net, net': Net, c: Sid, tx: TxId)
    requires WF(net) && WF(net') && c in net.srv && Further(net, net', c) && HeardRefusal(net, c, tx)
    ensures HeardRefusal(net', c, tx)
  {
    var q :| q in net.srv && Heard(net, q, c, Failed(c, tx));
    StillHeard(net, net', q, c, Failed(c, tx));
  }

  lemma StillUnheard(net: Net, net': Net, p: Sid, c: Sid, m: Msg)
    requires WF(net) && WF(net') && c in net.srv && p in net.srv && Further(net, net', c) && !Heard(net, p, c, m)
    requires net'.cur[(p, c)] == net.cur[(p, c)]
    ensures !Heard(net', p, c, m)
  {
    assert net'.log[p][..net.cur[(p, c)]] == net.log[p][..net.cur[(p, c)]];
  }

  lemma ReadOne(net: Net, net': Net, p: Sid, c: Sid, m: Msg)
    requires WF(net) && WF(net') && c in net.srv && p in net.srv && Further(net, net', c)
    requires net'.cur[(p, c)] == net.cur[(p, c)] + 1 && net.cur[(p, c)] < |net.log[p]|
    ensures Heard(net', p, c, m) <==> Heard(net, p, c, m) || net.log[p][net.cur[(p, c)]] == m
  {
    var k := net.cur[(p, c)];
    assert net'.log[p][..k + 1] == net.log[p][..k] + [net.log[p][k]];
  }

  // ----- one event keeps it on course -----

  /** Nothing new is read from those it waits for. */
  lemma StillWaits(net: Net, net': Net, c: Sid, k: Coordinating, peers: set<Sid>)
    requires WF(net) && WF(net') && c in net.srv && Further(net, net', c) && Waits(net, c, k, peers)
    requires forall p :: p in k.waiting && p in net.srv ==> net'.cur[(p, c)] == net.cur[(p, c)]
    ensures Waits(net', c, k, peers)
  {
    if k.failed { StillRefused(net, net', c, k.tx); }
    forall p | p in k.waiting ensures p in net'.srv && !Heard(net', p, c, Ready(c, k.tx)) {
      StillUnheard(net, net', p, c, Ready(c, k.tx));
    }
  }

  /** Another server's event. */
  lemma OtherKeeps(net: Net, net': Net, c: Sid, tx: TxId, peers: set<Sid>)
    requires OnCourse(net, c, tx, peers) && WF(net') && Further(net, net', c)
    requires net'.srv[c] == net.srv[c] && net'.log[c] == net.log[c]
    requires net.srv[c].coord.Some? ==>
               forall p :: p in net.srv[c].coord.value.waiting && p in net.srv ==> net'.cur[(p, c)] == net.cur[(p, c)]
    ensures OnCourse(net', c, tx, peers)
  {
    if HeardRefusal(net, c, tx) { StillRefused(net, net', c, tx); }
    if net.srv[c].coord.Some? && net.srv[c].coord.value.tx == tx {
      StillWaits(net, net', c, net.srv[c].coord.value, peers);
    }
  }

  /** The coordinator's own event. */
  ghost predicate Acted(net: Net, c: Sid, input: Input, e: Effect, net': Net) {
    && WF(net) && WF(net') && c in net.srv && Fits(net, c, input)
    && net'.srv == net.srv[c := e.server] && net'.log == net.log[c := net.log[c] + e.out]
    && net'.cur == if input.InMsg? then net.cur[(input.from, c) := net.cur[(input.from, c)] + 1] else net.cur
  }

  lemma ActedFurther(net: Net, c: Sid, input: Input, e: Effect, net': Net)
    requires Acted(net, c, input, e, net')
    ensures Further(net, net', c) && net'.srv[c] == e.server && net'.log[c] == net.log[c] + e.out
    ensures forall q :: q in net.srv && !(input.InMsg? && q == input.from) ==> net'.cur[(q, c)] == net.cur[(q, c)]
  {
  }

  /** It waits for fewer, none of whom has just said READY. */
  lemma WaitsOn(net: Net, c: Sid, input: Input, e: Effect, net': Net, k: Coordinating, k': Coordinating,
                peers: set<Sid>)
    requires Acted(net, c, input, e, net') && Waits(net, c, k, peers) && k'.tx == k.tx && k'.waiting <= k.waiting
    requires k'.failed ==> HeardRefusal(net', c, k.tx)
    requires forall p :: p in k'.waiting ==> !Answers(input, net.srv[c], k.tx, p)
    ensures Waits(net', c, k', peers)
  {
    ActedFurther(net, c, input, e, net');
    forall p | p in k'.waiting ensures p in net'.srv && !Heard(net', p, c, Ready(c, k.tx)) {
      assert !Answers(input, net.srv[c], k.tx, p);
      if input.InMsg? && p == input.from {
        ReadOne(net, net', p, c, Ready(c, k.tx));
      } else {
        StillUnheard(net, net', p, c, Ready(c, k.tx));
      }
    }
  }

  lemma RefusalRead(net: Net, c: Sid, input: Input, e: Effect, net': Net, tx: TxId)
    requires Acted(net, c, input, e, net') && (HeardRefusal(net, c, tx) || Denies(input, net.srv[c], tx))
    ensures HeardRefusal(net', c, tx)
  {
    ActedFurther(net, c, input, e, net');
    if HeardRefusal(net, c, tx) {
      StillRefused(net, net', c, tx);
    } else {
      ReadOne(net, net', input.from, c, Failed(c, tx));
    }
  }

  /** The coordinator reads an answer. */
  lemma AnswerKeeps(net: Net, c: Sid, input: Input, e: Effect, net': Net, tx: TxId, peers: set<Sid>)
    requires OnCourse(net, c, tx, peers) && Acted(net, c, input, e, net') && e == React(net.srv[c], input)
    requires LocalOk(net.srv[c]) && Decisions(net.srv[c], net.log[c]) && e.server.serial >= net.srv[c].serial
    requires net.srv[c].coord.Some? && net.srv[c].coord.value.tx == tx
    requires input.InMsg? && (input.msg == Ready(c, tx) || input.msg == Failed(c, tx))
    ensures OnCourse(net', c, tx, peers)
  {
    var s, k := net.srv[c], net.srv[c].coord.value;
    ActedFurther(net, c, input, e, net');
    AnswerFinishes(s, input, tx);
    if k.failed || Denies(input, s, tx) { RefusalRead(net, c, input, e, net', tx); }
    if e.server.coord.Some? { WaitsOn(net, c, input, e, net', k, e.server.coord.value, peers); }
  }

  /** It goes through anything else that is no deadline and no loss. */
  lemma PassKeeps(net: Net, c: Sid, input: Input, e: Effect, net': Net, tx: TxId, peers: set<Sid>)
    requires OnCourse(net, c, tx, peers) && Acted(net, c, input, e, net') && e == React(net.srv[c], input)
    requires LocalOk(net.srv[c]) && InputOk(net.srv[c], input) && Decisions(net.srv[c], net.log[c])
    requires e.server.serial >= net.srv[c].serial
    requires net.srv[c].coord.Some? && net.srv[c].coord.value.tx == tx && Patient(net.srv[c], input)
    requires input.InMsg? ==> input.msg != Ready(c, tx) && input.msg != Failed(c, tx)
    ensures OnCourse(net', c, tx, peers)
  {
    var s, k := net.srv[c], net.srv[c].coord.value;
    ActedFurther(net, c, input, e, net');
    OthersPass(s, input, tx);
    if k.failed { RefusalRead(net, c, input, e, net', tx); }
    WaitsOn(net, c, input, e, net', k, k, peers);
  }

  /** It is done, and stays so. */
  lemma DoneKeeps(net: Net, c: Sid, input: Input, e: Effect, net': Net, tx: TxId, peers: set<Sid>)
    requires OnCourse(net, c, tx, peers) && Acted(net, c, input, e, net')
    requires Abort(tx) !in e.out && e.server.serial >= net.srv[c].serial
    requires !(net.srv[c].coord.Some? && net.srv[c].coord.value.tx == tx)
    requires !(e.server.coord.Some? && e.server.coord.value.tx == tx)
    ensures OnCourse(net', c, tx, peers)
  {
    ActedFurther(net, c, input, e, net');
    if HeardRefusal(net, c, tx) { StillRefused(net, net', c, tx); }
  }

  lemma NotAgain(s: Server, input: Input, e: Effect, tx: TxId)
    requires StepFacts(s, input, e) && tx.serial <= s.serial && !(s.coord.Some? && s.coord.value.tx == tx)
    ensures !(e.server.coord.Some? && e.server.coord.value.tx == tx) && Abort(tx) !in e.out
  {
    assert Abort(tx) in e.out ==> MsgFacts(s, input, e, Abort(tx));
  }

  lemma CoordinatorKeeps(net: Net, c: Sid, input: Input, e: Effect, net': Net, tx: TxId, peers: set<Sid>)
    requires OnCourse(net, c, tx, peers) && Acted(net, c, input, e, net') && e == React(net.srv[c], input)
    requires LocalOk(net.srv[c]) && InputOk(net.srv[c], input) && Decisions(net.srv[c], net.log[c])
    requires StepFacts(net.srv[c], input, e) && Calm(Act(c, input), c, peers)
    ensures OnCourse(net', c, tx, peers)
  {
    var s := net.srv[c];
    if !(s.coord.Some? && s.coord.value.tx == tx) {
      NotAgain(s, input, e, tx);
      DoneKeeps(net, c, input, e, net', tx, peers);
    } else if input.InMsg? && (input.msg == Ready(c, tx) || input.msg == Failed(c, tx)) {
      AnswerKeeps(net, c, input, e, net', tx, peers);
    } else {
      PassKeeps(net, c, input, e, net', tx, peers);
    }
  }

  /** Not the coordinator's deadline, nor its loss of one of those it asked. */
  predicate Calm(act: Action, c: Sid, peers: set<Sid>) {
    act.Act? && act.i == c ==> !act.input.InTimer? && !(act.input.InGone? && act.input.x in peers)
  }

  lemma HappenOnCourse(net: Net, i: Sid, input: Input, c: Sid, tx: TxId, peers: set<Sid>)
    requires Inv(net) && i in net.srv && Fits(net, i, input)
    requires OnCourse(net, c, tx, peers) && Calm(Act(i, input), c, peers)
    ensures Inv(Happen(net, i, input)) && OnCourse(Happen(net, i, input), c, tx, peers)
  {
    HappenKeeps(net, i, input);
    StepOf(net, i, input, React(net.srv[i], input), Happen(net, i, input));
    SteppedKeeps(net, i, input, React(net.srv[i], input), Happen(net, i, input), c, tx, peers);
  }

  lemma StepOf(net: Net, i: Sid, input: Input, e: Effect, net': Net)
    requires Inv(net) && i in net.srv && Fits(net, i, input)
    requires e == React(net.srv[i], input) && net' == Happen(net, i, input)
    ensures Stepped(net, i, input, e, net') && InputOk(net.srv[i], input)
    ensures LocalOk(net.srv[i]) && Decisions(net.srv[i], net.log[i])
  {
    assert StreamOk(net.srv[i], net.log[i], net.hist[i]);
    InputFits(net, i, input);
    ReactFacts(net.srv[i], input);
    ActShape(net, i, input, e, net');
  }

  lemma SteppedKeeps(net: Net, i: Sid, input: Input, e: Effect, net': Net, c: Sid, tx: TxId, peers: set<Sid>)
    requires Stepped(net, i, input, e, net') && e == React(net.srv[i], input) && InputOk(net.srv[i], input)
    requires LocalOk(net.srv[i]) && Decisions(net.srv[i], net.log[i])
    requires OnCourse(net, c, tx, peers) && Calm(Act(i, input), c, peers)
    ensures OnCourse(net', c, tx, peers)
  {
    SteppedActs(net, i, input, e, net');
    if i == c {
      CoordinatorKeeps(net, c, input, e, net', tx, peers);
    } else {
      ElsewhereFurther(net, i, input, e, net', c);
      OtherKeeps(net, net', c, tx, peers);
    }
  }

  lemma SteppedActs(net: Net, i: Sid, input: Input, e: Effect, net': Net)
    requires Stepped(net, i, input, e, net')
    ensures Acted(net, i, input, e, net')
  {
  }

  lemma ElsewhereFurther(net: Net, i: Sid, input: Input, e: Effect, net': Net, c: Sid)
    requires Acted(net, i, input, e, net') && c in net.srv && c != i
    ensures Further(net, net', c) && net'.srv[c] == net.srv[c] && net'.log[c] == net.log[c]
    ensures forall q :: q in net.srv ==> net'.cur[(q, c)] == net.cur[(q, c)]
  {
  }

  lemma AdvanceOnCourse(net: Net, src: Sid, dst: Sid, to: nat, c: Sid, tx: TxId, peers: set<Sid>)
    requires Inv(net) && src in net.srv && dst in net.srv && !Depends(net.srv[dst], src)
    requires net.cur[(src, dst)] <= to <= |net.log[src]| && OnCourse(net, c, tx, peers)
    ensures Inv(Advance(net, src, dst, to)) && OnCourse(Advance(net, src, dst, to), c, tx, peers)
  {
    AdvanceKeeps(net, src, dst, to);
    AdvanceAside(net, src, dst, to, c, tx, peers);
  }

  lemma AdvanceAside(net: Net, src: Sid, dst: Sid, to: nat, c: Sid, tx: TxId, peers: set<Sid>)
    requires OnCourse(net, c, tx, peers) && src in net.srv && dst in net.srv && !Depends(net.srv[dst], src)
    requires net.cur[(src, dst)] <= to <= |net.log[src]|
    ensures OnCourse(Advance(net, src, dst, to), c, tx, peers)
  {
    OtherKeeps(net, Advance(net, src, dst, to), c, tx, peers);
  }

  lemma ActionOnCourse(net: Net, act: Action, c: Sid, tx: TxId, peers: set<Sid>)
    requires Inv(net) && OnCourse(net, c, tx, peers) && Enabled(net, act) && Calm(act, c, peers)
    ensures Inv(Do(net, act)) && OnCourse(Do(net, act), c, tx, peers)
  {
    match act
    case Act(i, input) => HappenOnCourse(net, i, input, c, tx, peers);
    case Lose(src, dst, upto) => AdvanceOnCourse(net, src, dst, upto, c, tx, peers);
    case Link(a, b) =>
      AdvanceOnCourse(net, a, b, |net.log[a]|, c, tx, peers);
      var net1 := Advance(net, a, b, |net.log[a]|);
      AdvanceOnCourse(net1, b, a, |net.log[b]|, c, tx, peers);
      LinkedOnCourse(Advance(net1, b, a, |net.log[b]|), a, b, c, tx, peers);
  }

  lemma LinkedOnCourse(net: Net, a: Sid, b: Sid, c: Sid, tx: TxId, peers: set<Sid>)
    requires Inv(net) && OnCourse(net, c, tx, peers) && a in net.srv && b in net.srv && a != b
    ensures var net1 := Happen(net, a, InLink(b));
            && Inv(net1) && b in net1.srv && Fits(net1, b, InLink(a))
            && Inv(Happen(net1, b, InLink(a))) && OnCourse(Happen(net1, b, InLink(a)), c, tx, peers)
  {
    HappenOnCourse(net, a, InLink(b), c, tx, peers);
    HappenOnCourse(Happen(net, a, InLink(b)), b, InLink(a), c, tx, peers);
  }

  ghost predicate AllCalm(acts: seq<Action>, c: Sid, peers: set<Sid>) {
    forall k :: 0 <= k < |acts| ==> Calm(acts[k], c, peers)
  }

  lemma {:induction false} RunOnCourse(net: Net, acts: seq<Action>, last: Net, c: Sid, tx: TxId, peers: set<Sid>)
    requires Inv(net) && OnCourse(net, c, tx, peers) && Run(net, acts, last) && AllCalm(acts, c, peers)
    ensures Inv(last) && OnCourse(last, c, tx, peers)
    decreases |acts|
  {
    if acts != [] {
      assert Calm(acts[0], c, peers);
      ActionOnCourse(net, acts[0], c, tx, peers);
      CalmRest(acts, c, peers);
      RunOnCourse(Do(net, acts[0]), acts[1..], last, c, tx, peers);
    }
  }

  lemma CalmRest(acts: seq<Action>, c: Sid, peers: set<Sid>)
    requires acts != [] && AllCalm(acts, c, peers)
    ensures AllCalm(acts[1..], c, peers)
  {
    assert forall k :: 0 <= k < |acts[1..]| ==> acts[1..][k] == acts[k + 1];
  }

  // ----- the beginning -----

  /** Nobody has answered what has not been asked. */
  lemma NothingHeard(net: Net, c: Sid, p: Sid, tx: TxId)
    requires WF(net) && c in net.srv && p in net.srv && p != c && OnceOk(net, p)
    requires Provenance(net.srv[c], net.log[c], net.hist[c]) && tx.origin == c && tx.serial > net.srv[c].serial
    ensures Ready(c, tx) !in net.log[p]
  {
    assert forall op, name :: Prepare(tx, op, name) in net.log[c] ==> MsgHome(net.srv[c], Prepare(tx, op, name));
    assert forall n :: n in net.hist[p] && IsPrepared(n, tx) ==> EntryHome(net, p, n);
  }

  lemma BeginOnCourse(net: Net, c: Sid, input: Input, net': Net)
    requires Inv(net) && OnceInv(net) && c in net.srv && input.InBegin? && Fits(net, c, input)
    requires Free(net.srv[c]) && Can(net.srv[c].modules, input.op, input.name, input.att)
    requires net' == Happen(net, c, input)
    ensures Inv(net') && OnCourse(net', c, NewTx(net.srv[c]), input.peers)
  {
    HappenKeeps(net, c, input);
    StreamOf(net, c);
    InvWF(net');
    BeginFrom(net, c, input, net');
  }

  lemma StreamOf(net: Net, c: Sid)
    requires Inv(net) && c in net.srv
    ensures StreamOk(net.srv[c], net.log[c], net.hist[c])
  {
  }

  lemma InvWF(net: Net)
    requires Inv(net)
    ensures WF(net)
  {
  }

  lemma BeginFrom(net: Net, c: Sid, input: Input, net': Net)
    requires WF(net) && WF(net') && OnceInv(net) && c in net.srv && input.InBegin? && Fits(net, c, input)
    requires Provenance(net.srv[c], net.log[c], net.hist[c]) && net' == Happen(net, c, input)
    requires Free(net.srv[c]) && Can(net.srv[c].modules, input.op, input.name, input.att)
    ensures OnCourse(net', c, NewTx(net.srv[c]), input.peers)
  {
    var s := net.srv[c];
    NobodyAnswered(net, c, input.peers, NewTx(s));
    BeginAsks(s, input.op, input.name, input.peers, input.att);
    SerialAfter(s, input);
    BegunOnCourse(net, c, input, React(s, input), net', NewTx(s));
  }

  lemma NobodyAnswered(net: Net, c: Sid, peers: set<Sid>, tx: TxId)
    requires OnceInv(net) && c in net.srv && peers <= net.srv.Keys && c !in peers
    requires Provenance(net.srv[c], net.log[c], net.hist[c]) && tx.origin == c && tx.serial > net.srv[c].serial
    ensures forall p :: p in peers ==> p in net.srv && Ready(c, tx) !in net.log[p]
  {
    forall p | p in peers ensures p in net.srv && Ready(c, tx) !in net.log[p] {
      assert OnceOk(net, p);
      NothingHeard(net, c, p, tx);
    }
  }

  lemma BegunOnCourse(net: Net, c: Sid, input: Input, e: Effect, net': Net, tx: TxId)
    requires Acted(net, c, input, e, net') && Provenance(net.srv[c], net.log[c], net.hist[c])
    requires input.InBegin? && tx == NewTx(net.srv[c]) && e.server.serial == tx.serial
    requires input.peers != {} ==> e.out == [Prepare(tx, input.op, input.name)]
    requires input.peers != {} ==>
               e.server.coord == Some(Coordinating(tx, input.op, input.name, input.peers, false))
    requires input.peers == {} ==> Commit(tx) in e.out && Abort(tx) !in e.out && e.server.coord.None?
    requires forall p :: p in input.peers ==> p in net.srv && Ready(c, tx) !in net.log[p]
    ensures OnCourse(net', c, tx, input.peers)
  {
    FreshTx(net.srv[c], net.log[c], net.hist[c], tx);
    ActedFurther(net, c, input, e, net');
    if input.peers != {} {
      BegunWaits(net, c, input, e, net', tx);
    }
  }

  lemma BegunWaits(net: Net, c: Sid, input: Input, e: Effect, net': Net, tx: TxId)
    requires Acted(net, c, input, e, net') && input.InBegin?
    requires forall p :: p in input.peers ==> p in net.srv && Ready(c, tx) !in net.log[p]
    ensures Waits(net', c, Coordinating(tx, input.op, input.name, input.peers, false), input.peers)
  {
    forall p | p in input.peers ensures p in net'.srv && !Heard(net', p, c, Ready(c, tx)) {
      assert net'.log[p] == net.log[p];
    }
  }

  lemma SerialAfter(s: Server, input: Input)
    requires input.InBegin? && Free(s) && Can(s.modules, input.op, input.name, input.att)
    ensures Begin(s, input.op, input.name, input.peers, input.att).server.serial == s.serial + 1
  {
  }

  // ----- the outcome -----

  /** Once every server that was asked has said READY and the coordinator has
      read it, and nobody's refusal, COMMIT has been sent -- whatever the
      operation, and whatever else happened, as long as the coordinator's
      deadline did not pass and it lost none of those it asked. */
  lemma AllReadyCommits(net: Net, c: Sid, op: Op, name: string, peers: set<Sid>, att: Attempt, acts: seq<Action>,
                        last: Net)
    requires Reachable(net) && WF(net) && c in net.srv && Fits(net, c, InBegin(op, name, peers, att))
    requires Free(net.srv[c]) && Can(net.srv[c].modules, op, name, att)
    requires Run(Happen(net, c, InBegin(op, name, peers, att)), acts, last)
    requires AllCalm(acts, c, peers)
    requires var tx := TxId(c, net.srv[c].serial + 1);
             && WF(last) && c in last.srv && !HeardRefusal(last, c, tx)
             && forall p :: p in peers ==> p in last.srv && Heard(last, p, c, Ready(c, tx))
    ensures Commit(TxId(c, net.srv[c].serial + 1)) in last.log[c]
  {
    var tx, input := TxId(c, net.srv[c].serial + 1), InBegin(op, name, peers, att);
    ReachableInv(net);
    ReachableOnce(net);
    assert net.srv[c].self == c;
    BeginOnCourse(net, c, input, Happen(net, c, input));
    RunOnCourse(Happen(net, c, input), acts, last, c, tx, peers);
    StreamOf(last, c);
  }

  // ----- who has read it -----

  /** q has read that c committed tx. */
  ghost predicate ReadCommit(net: Net, c: Sid, q: Sid, tx: TxId)
    requires WF(net) && c in net.srv && q in net.srv
  {
    Commit(tx) in if q == c then net.log[c] else net.log[c][..net.cur[(c, q)]]
  }

  lemma NothingOpen(net: Net, c: Sid, tx: TxId, q: Sid)
    requires Inv(net) && c in net.srv && q in net.srv && tx.origin == c && ReadCommit(net, c, q, tx)
    ensures net.srv[q].part.Some? ==> net.srv[q].part.value.tx != tx
  {
    assert LocalOk(net.srv[q]) && CrossOk(net, q) && Decisions(net.srv[c], net.log[c]);
  }

  /** Every server that prepared a transaction and has read COMMIT for it is
      done with it: it has applied it -- what was loaded stays, what was to be
      unloaded is gone if the loader let it go -- unless it had given up by
      itself before. */
  lemma CommitApplies(net: Net, c: Sid, tx: TxId, q: Sid, j: nat) returns (k: nat)
    requires Reachable(net) && WF(net) && c in net.srv && q in net.srv && tx.origin == c
    requires j < |net.hist[q]| && net.hist[q][j].Prepared? && net.hist[q][j].tx == tx && ReadCommit(net, c, q, tx)
    ensures Closes(net.hist[q], j, k) && (net.hist[q][k].committed <==> net.hist[q][k].why == Told)
    ensures var prep, end := net.hist[q][j], net.hist[q][k];
            end.committed && !Rehashes(net.hist[q], j, k) ==>
              end.result == if prep.op == Unload && end.unloads then prep.prior - {prep.name} else prep.after
  {
    ReachableInv(net);
    var h := net.hist[q];
    assert EffectInv(net.srv[q], h) && CrossOk(net, q) && Decisions(net.srv[c], net.log[c]);
    NothingOpen(net, c, tx, q);
    k := ClosedOrOpen(h, j);
    assert k < |h|;
    assert SettledNote(net, q, h[k]);
    var i := SettledOnce(net, q, k);
    assert i == j;
  }
}
