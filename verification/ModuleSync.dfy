/** One server's half of the module synchronisation protocol, on values.
    Each function below is one entry point of ircd/module_sync.c: it takes
    the server's state and an event, and gives the new state, the lines the
    server sends, and a record of what happened.  What the environment
    decides (whether a module loads or unloads, who is on the network) is
    an argument. */
module ModuleSync {
  import opened Options

  type Sid = nat
  type Version = nat

  /** What a server runs: name to version.  The digest two servers compare
      covers exactly this and is taken to be injective, so the set itself
      travels. */
  type ModuleSet = map<string, Version>

  datatype Op = Load | Unload | Reload

  /** A server's numeric and its counter. */
  datatype TxId = TxId(origin: Sid, serial: nat)

  /** What the module loader answers if it is asked during an event. */
  datatype Attempt = Attempt(unloads: bool, loads: Option<Version>)

  datatype Coordinating = Coordinating(tx: TxId, op: Op, name: string, waiting: set<Sid>, failed: bool)

  datatype Participating = Participating(tx: TxId, op: Op, name: string, undoLoad: bool, coordinator: Sid)

  /** `down` lists the direct links, `checked` those whose announced set was
      compared and matched, `armed` says the deadline timer is running. */
  datatype Server = Server(self: Sid, sync: bool, modules: ModuleSet, serial: nat,
                           coord: Option<Coordinating>, part: Option<Participating>,
                           down: seq<Sid>, checked: set<Sid>, armed: bool)
  {
    predicate Busy() { coord.Some? || part.Some? }
  }

  datatype Msg =
    | Announce(to: Sid, digest: ModuleSet)
    | EndOfBurst(to: Sid)
    | Prepare(tx: TxId, op: Op, name: string)
    | Ready(to: Sid, tx: TxId)
    | Failed(to: Sid, tx: TxId)
    | Commit(tx: TxId)
    | Abort(tx: TxId)

  /** Why a participant stopped waiting.  `at` is how far it had read the
      coordinator's stream when it lost it. */
  datatype Why = Told | Deadline | CoordinatorLost(at: nat)

  /** The record of what a server did, in order. */
  datatype Note =
    | Began(tx: TxId, peers: set<Sid>)
    | Prepared(tx: TxId, op: Op, name: string, prior: ModuleSet, after: ModuleSet)
    // `free` says the server was in a position to take part, `unloads` what its
    // loader would have answered if asked to let the module go.
    | Refused(tx: TxId, op: Op, name: string, prior: ModuleSet, after: ModuleSet, free: bool, unloads: bool)
    | Settled(tx: TxId, committed: bool, why: Why, result: ModuleSet, unloads: bool)
    | Rehashed
    | LinkUp(peer: Sid)
    // The peer's burst ended, its set was never compared, and it may stay.
    | Excused(peer: Sid, service: bool)

  datatype Effect = Effect(server: Server, out: seq<Msg>, notes: seq<Note>)

  function Nothing(s: Server): Effect { Effect(s, [], []) }

  function Then(first: Effect, second: Effect): Effect {
    Effect(second.server, first.out + second.out, first.notes + second.notes)
  }

  // ----- the link check -----

  function AnnounceAll(links: seq<Sid>, modules: ModuleSet): seq<Msg> {
    if links == [] then [] else [Announce(links[0], modules)] + AnnounceAll(links[1..], modules)
  }

  /** modsync_local_change: tell every peer. */
  function LocalChange(s: Server): seq<Msg> {
    if s.sync then AnnounceAll(s.down, s.modules) else []
  }

  function Without(links: seq<Sid>, x: Sid): seq<Sid> {
    if links == [] then []
    else if links[0] == x then Without(links[1..], x)
    else [links[0]] + Without(links[1..], x)
  }

  function DropLink(s: Server, x: Sid): Server {
    s.(down := Without(s.down, x), checked := s.checked - {x})
  }

  /** modsync_recv_set */
  function RecvAnnounce(s: Server, from: Sid, digest: ModuleSet): Effect {
    if !s.sync || s.Busy() then Nothing(s)
    else if digest != s.modules then Nothing(DropLink(s, from))
    else Nothing(s.(checked := s.checked + {from}))
  }

  /** modsync_burst_done; `service` excuses the silence of a services server. */
  function BurstDone(s: Server, from: Sid, service: bool): Effect {
    if !s.sync || from in s.checked then Nothing(s)
    else if service || s.Busy() then Effect(s, [], [Excused(from, service)])
    else Nothing(DropLink(s, from))
  }

  /** A rehash replaced the Module{} blocks' set. */
  function Rehash(s: Server, modules: ModuleSet): Effect {
    var s1 := s.(modules := modules);
    Effect(s1, LocalChange(s1), [Rehashed])
  }

  // ----- the participant -----

  datatype Prep = Prep(ok: bool, modules: ModuleSet, undoLoad: bool)

  /** part_prepare */
  function PrepareHere(modules: ModuleSet, op: Op, name: string, att: Attempt): Prep {
    match op
    case Load =>
      if name in modules || att.loads.None? then Prep(false, modules, false)
      else Prep(true, modules[name := att.loads.value], true)
    case Unload =>
      Prep(name in modules, modules, false)
    case Reload =>
      if name !in modules || !att.unloads then Prep(false, modules, false)
      else if att.loads.None? then Prep(false, modules - {name}, false)
      else Prep(true, modules[name := att.loads.value], true)
  }

  /** part_rollback */
  function RolledBack(modules: ModuleSet, part: Participating, unloads: bool): ModuleSet {
    if part.undoLoad && unloads then modules - {part.name} else modules
  }

  /** part_commit */
  function Committed(modules: ModuleSet, part: Participating, unloads: bool): ModuleSet {
    if part.op == Unload && unloads then modules - {part.name} else modules
  }

  function EndPart(s: Server): Server {
    s.(part := None, armed := s.armed && s.coord.Some?)
  }

  /** part_settle, with the reason the record keeps. */
  function SettlePart(s: Server, commit: bool, why: Why, unloads: bool): Effect
    requires s.part.Some?
  {
    var part := s.part.value;
    var modules := if commit then Committed(s.modules, part, unloads) else RolledBack(s.modules, part, unloads);
    var s1 := EndPart(s.(modules := modules));
    Effect(s1, LocalChange(s1), [Settled(part.tx, commit, why, modules, unloads)])
  }

  /** The PREPARE branch of modsync_recv; `from` is the server that sent it. */
  function RecvPrepare(s: Server, from: Sid, tx: TxId, op: Op, name: string, att: Attempt): Effect {
    if !s.sync || s.Busy() then
      Effect(s, [Failed(from, tx)], [Refused(tx, op, name, s.modules, s.modules, false, att.unloads)])
    else
      var prep := PrepareHere(s.modules, op, name, att);
      if !prep.ok then
        Effect(s.(modules := prep.modules, armed := false), [Failed(from, tx)],
               [Refused(tx, op, name, s.modules, prep.modules, true, att.unloads)])
      else
        Effect(s.(modules := prep.modules, part := Some(Participating(tx, op, name, prep.undoLoad, from)),
          armed := true),
               [Ready(from, tx)], [Prepared(tx, op, name, s.modules, prep.modules)])
  }

  /** The COMMIT and ABORT branch of modsync_recv. */
  function RecvOutcome(s: Server, commit: bool, tx: TxId, unloads: bool): Effect {
    if s.part.None? || s.part.value.tx != tx then Nothing(s)
    else SettlePart(s, commit, Told, unloads)
  }

  // ----- the coordinator -----

  function EndCoord(s: Server): Server {
    s.(coord := None, armed := s.armed && s.part.Some?)
  }

  /** coord_finish: the outcome goes out before this server settles. */
  function FinishCoord(s: Server, commit: bool, unloads: bool): Effect
    requires s.coord.Some?
  {
    var tx := s.coord.value.tx;
    var outcome := if commit then Commit(tx) else Abort(tx);
    if s.part.Some? && s.part.value.tx == tx then
      var e := SettlePart(s, commit, Told, unloads);
      Effect(EndCoord(e.server), [outcome] + e.out, e.notes)
    else
      Effect(EndCoord(s), [outcome], [])
  }

  /** The end of modsync_begin: this server is ready, so the rest are asked. */
  function AskAll(s: Server, prior: ModuleSet, unloads: bool): Effect
    requires s.coord.Some?
  {
    var c := s.coord.value;
    var first := Effect(s, [Prepare(c.tx, c.op, c.name)],
                        [Began(c.tx, c.waiting), Prepared(c.tx, c.op, c.name, prior, s.modules)]);
    if c.waiting == {} then Then(first, FinishCoord(s, !c.failed, unloads))
    else first.(server := s.(armed := true))
  }

  /** modsync_begin; `peers` is every other server on the network. */
  function Begin(s: Server, op: Op, name: string, peers: set<Sid>, att: Attempt): Effect {
    if s.Busy() || !s.sync then Nothing(s)
    else
      var tx := TxId(s.self, s.serial + 1);
      var prep := PrepareHere(s.modules, op, name, att);
      var s1 := s.(serial := s.serial + 1, modules := prep.modules);
      if !prep.ok then
        Effect(s1.(armed := false), [], [Refused(tx, op, name, s.modules, prep.modules, true, att.unloads)])
      else
        AskAll(s1.(coord := Some(Coordinating(tx, op, name, peers, false)),
                   part := Some(Participating(tx, op, name, prep.undoLoad, s.self))), s.modules, att.unloads)
  }

  function FailCoord(s: Server): Server
    requires s.coord.Some?
  {
    s.(coord := Some(s.coord.value.(failed := true)))
  }

  function StopWaiting(s: Server, x: Sid): Server
    requires s.coord.Some?
  {
    s.(coord := Some(s.coord.value.(waiting := s.coord.value.waiting - {x})))
  }

  /** The READY and FAILED branch of modsync_recv. */
  function RecvAnswer(s: Server, from: Sid, ok: bool, tx: TxId, unloads: bool): Effect {
    if s.coord.None? || s.coord.value.tx != tx then Nothing(s)
    else
      var s1 := StopWaiting(if ok then s else FailCoord(s), from);
      if s1.coord.value.waiting == {} then FinishCoord(s1, !s1.coord.value.failed, unloads)
      else Nothing(s1.(armed := true))
  }

  /** modsync_timer_cb */
  function TimerExpired(s: Server, unloads: bool): Effect {
    if s.coord.Some? then FinishCoord(FailCoord(s.(armed := false)), false, unloads)
    else if s.part.Some? then SettlePart(s.(armed := false), false, Deadline, unloads)
    else Nothing(s.(armed := false))
  }

  /** The second half of modsync_server_gone: the coordinator left, so the
      server undoes what it prepared -- and, unlike part_settle, tells nobody. */
  function LoseCoordinator(s: Server, x: Sid, at: nat, unloads: bool): Effect {
    if s.part.Some? && s.part.value.coordinator == x then
      var part := s.part.value;
      var modules := RolledBack(s.modules, part, unloads);
      Effect(EndPart(s.(modules := modules)), [],
             [Settled(part.tx, false, CoordinatorLost(at), modules, unloads)])
    else Nothing(s)
  }

  /** modsync_server_gone */
  function ServerGone(s: Server, x: Sid, at: nat, unloads: bool): Effect {
    var e :=
      if s.coord.Some? && x in s.coord.value.waiting then
        var s1 := StopWaiting(FailCoord(s), x);
        if s1.coord.value.waiting == {} then FinishCoord(s1, false, unloads) else Nothing(s1)
      else Nothing(s);
    Then(e, LoseCoordinator(e.server, x, at, unloads))
  }

  // ----- every event in one place -----

  datatype Input =
    | InBegin(op: Op, name: string, peers: set<Sid>, att: Attempt)
    | InMsg(from: Sid, msg: Msg, att: Attempt, service: bool)
    | InTimer(unloads: bool)
    | InGone(x: Sid, at: nat, unloads: bool)
    | InRehash(modules: ModuleSet)
    | InUnlink(x: Sid)
    | InLink(x: Sid)

  /** modsync_recv: what a server does with one line from `from`. */
  function Recv(s: Server, from: Sid, msg: Msg, att: Attempt, service: bool): Effect {
    match msg
    case Announce(to, digest) =>
      if to == s.self && from in s.down then RecvAnnounce(s, from, digest) else Nothing(s)
    case EndOfBurst(to) =>
      if to == s.self && from in s.down then BurstDone(s, from, service) else Nothing(s)
    case Prepare(tx, op, name) => RecvPrepare(s, from, tx, op, name, att)
    case Ready(to, tx) => if to == s.self then RecvAnswer(s, from, true, tx, att.unloads) else Nothing(s)
    case Failed(to, tx) => if to == s.self then RecvAnswer(s, from, false, tx, att.unloads) else Nothing(s)
    case Commit(tx) => RecvOutcome(s, true, tx, att.unloads)
    case Abort(tx) => RecvOutcome(s, false, tx, att.unloads)
  }

  function React(s: Server, input: Input): Effect {
    match input
    case InBegin(op, name, peers, att) => Begin(s, op, name, peers, att)
    case InMsg(from, msg, att, service) => Recv(s, from, msg, att, service)
    case InTimer(unloads) => TimerExpired(s, unloads)
    case InGone(x, at, unloads) => ServerGone(s, x, at, unloads)
    case InRehash(modules) => Rehash(s, modules)
    case InUnlink(x) => Nothing(DropLink(s, x))
    case InLink(x) =>
      // A new link: announce first, then the burst and its end.
      var s1 := s.(down := s.down + [x], checked := s.checked - {x});
      Effect(s1, (if s.sync then [Announce(x, s.modules)] else []) + [EndOfBurst(x)], [LinkUp(x)])
  }
}
