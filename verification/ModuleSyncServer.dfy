/** ircd/module_sync.c as it is written: file-scope state that every entry
    point updates in place, lists walked with loops, lines sent as it goes.
    Each method is proved to do what the function of the same name in
    ModuleSync says. */
module ModuleSyncServer {
  import opened Options
  import opened ModuleSync
  import opened ModuleSyncSteps

  ghost predicate Distinct(s: seq<Sid>) {
    forall i, j :: 0 <= i < j < |s| ==> s[i] != s[j]
  }

  ghost function Elements(s: seq<Sid>): set<Sid> { set x | x in s }

  /** The two static structs; `waiting` is a list of its own. */
  datatype CoordVar = CoordVar(active: bool, tx: TxId, op: Op, name: string, failed: bool)
  datatype PartVar = PartVar(active: bool, tx: TxId, op: Op, name: string, undoLoad: bool, coordinator: Sid)

  class State {
    const self: Sid
    const sync: bool
    var modules: ModuleSet
    var serial: nat

    var coord: CoordVar
    var waiting: seq<Sid>
    var part: PartVar

    var down: seq<Sid>
    var checked: set<Sid>
    var armed: bool

    var sent: seq<Msg>
    ghost var record: seq<Note>

    ghost predicate Valid() reads this { Distinct(waiting) }

    ghost function View(): Server
      reads this
    {
      Server(self, sync, modules, serial,
             if coord.active then Some(Coordinating(coord.tx, coord.op, coord.name, Elements(waiting), coord.failed))
             else None,
             if part.active then Some(Participating(part.tx, part.op, part.name, part.undoLoad, part.coordinator))
             else None,
             down, checked, armed)
    }

    /** This is what `e` makes of a server that had sent `sent0` and recorded `record0`. */
    ghost predicate Is(e: Effect, sent0: seq<Msg>, record0: seq<Note>)
      reads this
    {
      Valid() && View() == e.server && sent == sent0 + e.out && record == record0 + e.notes
    }

    constructor (self: Sid, sync: bool, modules: ModuleSet)
      ensures Valid() && View() == Server(self, sync, modules, 0, None, None, [], {}, false)
      ensures sent == [] && record == []
    {
      this.self, this.sync, this.modules, this.serial := self, sync, modules, 0;
      coord, part := CoordVar(false, TxId(0, 0), Load, "", false), PartVar(false, TxId(0, 0), Load, "", false, 0);
      waiting, down, checked, armed, sent, record := [], [], {}, false, [], [];
    }

    method Busy() returns (busy: bool)
      ensures busy == View().Busy()
    {
      busy := coord.active || part.active;
    }

    // ----- the link check -----

    method LocalChange()
      requires Valid()
      modifies this`sent
      ensures Is(Effect(old(View()), ModuleSync.LocalChange(old(View())), []), old(sent), old(record))
    {
      if !sync { return; }
      var k := 0;
      while k < |down|
        invariant 0 <= k <= |down| && sent == old(sent) + AnnounceAll(down[..k], modules)
      {
        sent := sent + [Announce(down[k], modules)];
        OnlyAnnouncements(down[..k], modules);
        OnlyAnnouncements(down[..k + 1], modules);
        assert AnnounceAll(down[..k + 1], modules) == AnnounceAll(down[..k], modules) + [Announce(down[k], modules)];
        k := k + 1;
      }
      assert down[..k] == down;
    }

    method Refuse(x: Sid)
      requires Valid()
      modifies this`down, this`checked
      ensures Valid() && View() == DropLink(old(View()), x)
    {
      var left: seq<Sid> := [];
      var k := |down|;
      while k > 0
        invariant 0 <= k <= |down| && left == Without(down[k..], x)
      {
        k := k - 1;
        assert down[k..][1..] == down[k + 1..];
        if down[k] != x { left := [down[k]] + left; }
      }
      assert down[0..] == down;
      down, checked := left, checked - {x};
    }

    method RecvSet(from: Sid, digest: ModuleSet)
      requires Valid()
      modifies this
      ensures Is(RecvAnnounce(old(View()), from, digest), old(sent), old(record))
    {
      var busy := Busy();
      if !sync || busy { return; }
      if digest != modules { Refuse(from); } else { checked := checked + {from}; }
    }

    method BurstDone(from: Sid, service: bool)
      requires Valid()
      modifies this
      ensures Is(ModuleSync.BurstDone(old(View()), from, service), old(sent), old(record))
    {
      if !sync || from in checked { return; }
      var busy := Busy();
      if service || busy { record := record + [Excused(from, service)]; } else { Refuse(from); }
    }

    method Rehash(set': ModuleSet)
      requires Valid()
      modifies this
      ensures Is(ModuleSync.Rehash(old(View()), set'), old(sent), old(record))
    {
      modules := set';
      LocalChange();
      record := record + [Rehashed];
    }

    // ----- the participant -----

    method EndPart()
      requires Valid()
      modifies this`part, this`armed
      ensures Valid() && View() == ModuleSync.EndPart(old(View())) && part == old(part).(active := false)
    {
      part := part.(active := false);
      if !coord.active { armed := false; }
    }

    method Rollback(unloads: bool)
      requires Valid() && part.active
      modifies this`modules
      ensures Valid() && View() == old(View()).(modules := RolledBack(old(modules), old(View()).part.value, unloads))
    {
      if !part.undoLoad { return; }
      if part.name in modules && unloads { modules := modules - {part.name}; }
      assert part.name !in old(modules) ==> old(modules) - {part.name} == old(modules);
    }

    /** Returns what PrepareHere says and leaves its module set behind. */
    method PartPrepare(att: Attempt) returns (ok: bool)
      requires Valid() && part.active && !part.undoLoad
      modifies this`modules, this`part
      ensures Valid()
      ensures var prep := PrepareHere(old(modules), old(part).op, old(part).name, att);
              ok == prep.ok && modules == prep.modules && part == old(part).(undoLoad := prep.undoLoad)
    {
      match part.op
      case Load =>
        if part.name in modules || att.loads.None? { return false; }
        modules, part := modules[part.name := att.loads.value], part.(undoLoad := true);
        return true;
      case Unload =>
        return part.name in modules;
      case Reload =>
        if part.name !in modules || !att.unloads { return false; }
        modules := modules - {part.name};
        if att.loads.None? { return false; }
        assert (old(modules) - {part.name})[part.name := att.loads.value] == old(modules)[part.name := att.loads.value];
        modules, part := modules[part.name := att.loads.value], part.(undoLoad := true);
        return true;
    }

    method PartCommit(unloads: bool)
      requires Valid() && part.active
      modifies this`modules
      ensures Valid() && View() == old(View()).(modules := Committed(old(modules), old(View()).part.value, unloads))
    {
      if part.op == Unload && part.name in modules && unloads { modules := modules - {part.name}; }
      assert part.name !in old(modules) ==> old(modules) - {part.name} == old(modules);
    }

    method PartSettle(commit: bool, ghost why: Why, unloads: bool)
      requires Valid() && part.active
      modifies this
      ensures Is(SettlePart(old(View()), commit, why, unloads), old(sent), old(record))
    {
      if commit { PartCommit(unloads); } else { Rollback(unloads); }
      EndPart();
      LocalChange();
      record := record + [Settled(part.tx, commit, why, modules, unloads)];
    }

    // ----- the coordinator -----

    /** coord_drop_peer: unlink the first entry that is x. */
    method DropPeer(x: Sid) returns (found: bool)
      requires Valid()
      modifies this`waiting
      ensures Valid() && Elements(waiting) == Elements(old(waiting)) - {x} && found == (x in old(waiting))
      ensures !found ==> waiting == old(waiting)
    {
      var k := 0;
      while k < |waiting|
        invariant 0 <= k <= |waiting| && waiting == old(waiting) && forall i :: 0 <= i < k ==> waiting[i] != x
      {
        if waiting[k] == x {
          waiting := waiting[..k] + waiting[k + 1..];
          return true;
        }
        k := k + 1;
      }
      return false;
    }

    method EndCoord()
      requires Valid()
      modifies this`coord, this`waiting, this`armed
      ensures Valid() && View() == ModuleSync.EndCoord(old(View())) && coord == old(coord).(active := false)
    {
      waiting, coord := [], coord.(active := false);
      if !part.active { armed := false; }
    }

    method Finish(commit: bool, unloads: bool)
      requires Valid() && coord.active
      modifies this
      ensures Is(FinishCoord(old(View()), commit, unloads), old(sent), old(record))
    {
      sent := sent + [if commit then Commit(coord.tx) else Abort(coord.tx)];
      if part.active && part.tx == coord.tx { PartSettle(commit, Told, unloads); }
      EndCoord();
    }

    /** coord_collect_peers: every server of the client list but this one. */
    method CollectPeers(servers: seq<Sid>)
      requires Distinct(servers)
      modifies this`waiting
      ensures Distinct(waiting) && Elements(waiting) == Elements(servers) - {self}
    {
      waiting := [];
      var k := 0;
      while k < |servers|
        invariant 0 <= k <= |servers| && Distinct(waiting) && Elements(waiting) == Elements(servers[..k]) - {self}
      {
        assert servers[..k + 1] == servers[..k] + [servers[k]];
        assert Elements(servers[..k + 1]) == Elements(servers[..k]) + {servers[k]};
        if servers[k] != self {
          assert servers[k] !in Elements(waiting);
          assert Elements([servers[k]] + waiting) == Elements(waiting) + {servers[k]};
          waiting := [servers[k]] + waiting;
        }
        k := k + 1;
      }
      assert servers[..k] == servers;
    }

    /** The transaction's two halves, before anything is prepared. */
    method Open(op: Op, name: string, servers: seq<Sid>)
      requires Valid() && Distinct(servers)
      modifies this
      ensures Valid() && sent == old(sent) && record == old(record)
      ensures var tx := TxId(self, old(serial) + 1);
              View() == old(View()).(serial := old(serial) + 1,
                                     coord := Some(Coordinating(tx, op, name, Elements(servers) - {self}, false)),
                                     part := Some(Participating(tx, op, name, false, self)))
    {
      serial := serial + 1;
      coord := CoordVar(true, TxId(self, serial), op, name, false);
      CollectPeers(servers);
      part := PartVar(true, coord.tx, op, name, false, self);
    }

    /** Preparing failed here: forget the transaction before anybody hears of it. */
    method Forget(ghost prior: ModuleSet, unloads: bool)
      requires Valid() && coord.active && part.active && !part.undoLoad
      modifies this
      ensures Is(Effect(old(View()).(coord := None, part := None, armed := false), [],
                        [Refused(old(coord).tx, old(coord).op, old(coord).name, prior, old(modules), true, unloads)]),
                 old(sent), old(record))
    {
      Rollback(unloads);
      EndPart();
      EndCoord();
      record := record + [Refused(coord.tx, coord.op, coord.name, prior, modules, true, unloads)];
    }

    method Begin(op: Op, name: string, servers: seq<Sid>, att: Attempt)
      requires Valid() && Distinct(servers)
      modifies this
      ensures Is(ModuleSync.Begin(old(View()), op, name, Elements(servers) - {self}, att), old(sent), old(record))
    {
      var busy := Busy();
      if busy || !sync { return; }
      Open(op, name, servers);
      var ok := PartPrepare(att);
      if ok { Ask(old(modules), att.unloads); } else { Forget(old(modules), att.unloads); }
    }

    method Ask(ghost prior: ModuleSet, unloads: bool)
      requires Valid() && coord.active
      modifies this
      ensures Is(AskAll(old(View()), prior, unloads), old(sent), old(record))
    {
      ghost var was := View();
      sent := sent + [Prepare(coord.tx, coord.op, coord.name)];
      record := record + [Began(coord.tx, Elements(waiting)), Prepared(coord.tx, coord.op, coord.name, prior, modules)];
      assert waiting == [] <==> Elements(waiting) == {} by {
        if waiting != [] { assert waiting[0] in Elements(waiting); }
      }
      assert View() == was;
      if waiting == [] { Finish(!coord.failed, unloads); } else { armed := true; }
    }

    // ----- receiving -----

    method RecvPrepare(from: Sid, tx: TxId, op: Op, name: string, att: Attempt)
      requires Valid()
      modifies this
      ensures Is(ModuleSync.RecvPrepare(old(View()), from, tx, op, name, att), old(sent), old(record))
    {
      var busy := Busy();
      if !sync || busy {
        sent, record := sent + [Failed(from, tx)],
          record + [Refused(tx, op, name, modules, modules, false, att.unloads)];
        return;
      }
      part := PartVar(true, tx, op, name, false, from);
      var ok := PartPrepare(att);
      if !ok {
        Rollback(att.unloads);
        sent := sent + [Failed(from, tx)];
        record := record + [Refused(tx, op, name, old(modules), modules, true, att.unloads)];
        EndPart();
        return;
      }
      sent, record := sent + [Ready(from, tx)], record + [Prepared(tx, op, name, old(modules), modules)];
      armed := true;
    }

    method RecvAnswer(from: Sid, ok: bool, tx: TxId, unloads: bool)
      requires Valid()
      modifies this
      ensures Is(ModuleSync.RecvAnswer(old(View()), from, ok, tx, unloads), old(sent), old(record))
    {
      if !coord.active || coord.tx != tx { return; }
      if !ok { coord := coord.(failed := true); }
      var _ := DropPeer(from);
      assert waiting == [] <==> Elements(waiting) == {} by {
        if waiting != [] { assert waiting[0] in Elements(waiting); }
      }
      if waiting == [] { Finish(!coord.failed, unloads); } else { armed := true; }
    }

    method RecvOutcome(commit: bool, tx: TxId, unloads: bool)
      requires Valid()
      modifies this
      ensures Is(ModuleSync.RecvOutcome(old(View()), commit, tx, unloads), old(sent), old(record))
    {
      if !part.active || part.tx != tx { return; }
      PartSettle(commit, Told, unloads);
    }

    method Timeout(unloads: bool)
      requires Valid()
      modifies this
      ensures Is(TimerExpired(old(View()), unloads), old(sent), old(record))
    {
      armed := false;
      if coord.active {
        coord := coord.(failed := true);
        Finish(!coord.failed, unloads);
      } else if part.active {
        PartSettle(false, Deadline, unloads);
      }
    }

    /** The first half of modsync_server_gone: stop waiting for x. */
    method StopWaiting(x: Sid, unloads: bool)
      requires Valid()
      modifies this
      ensures var s := old(View());
              Is(if s.coord.Some? && x in s.coord.value.waiting then
                   var s1 := ModuleSync.StopWaiting(FailCoord(s), x);
                   if s1.coord.value.waiting == {} then FinishCoord(s1, false, unloads) else Nothing(s1)
                 else Nothing(s), old(sent), old(record))
    {
      if coord.active {
        var found := DropPeer(x);
        assert waiting == [] <==> Elements(waiting) == {} by {
          if waiting != [] { assert waiting[0] in Elements(waiting); }
        }
        if found {
          coord := coord.(failed := true);
          if waiting == [] { Finish(false, unloads); }
        }
      }
    }

    /** The second half: the coordinator of what this server prepared has left. */
    method LoseCoordinator(x: Sid, ghost at: nat, unloads: bool)
      requires Valid()
      modifies this
      ensures Is(ModuleSync.LoseCoordinator(old(View()), x, at, unloads), old(sent), old(record))
    {
      if part.active && part.coordinator == x {
        Rollback(unloads);
        EndPart();
        record := record + [Settled(part.tx, false, CoordinatorLost(at), modules, unloads)];
      }
    }

    method ServerGone(x: Sid, ghost at: nat, unloads: bool)
      requires Valid()
      modifies this
      ensures Is(ModuleSync.ServerGone(old(View()), x, at, unloads), old(sent), old(record))
    {
      StopWaiting(x, unloads);
      LoseCoordinator(x, at, unloads);
    }

    /** modsync_recv, on a line that has reached the server it is for. */
    method Recv(from: Sid, msg: Msg, att: Attempt, service: bool)
      requires Valid()
      modifies this
      ensures Is(ModuleSync.Recv(old(View()), from, msg, att, service), old(sent), old(record))
    {
      match msg
      case Announce(to, digest) => if to == self && from in down { RecvSet(from, digest); }
      case EndOfBurst(to) => if to == self && from in down { BurstDone(from, service); }
      case Prepare(tx, op, name) => RecvPrepare(from, tx, op, name, att);
      case Ready(to, tx) => if to == self { RecvAnswer(from, true, tx, att.unloads); }
      case Failed(to, tx) => if to == self { RecvAnswer(from, false, tx, att.unloads); }
      case Commit(tx) => RecvOutcome(true, tx, att.unloads);
      case Abort(tx) => RecvOutcome(false, tx, att.unloads);
    }
  }
}
