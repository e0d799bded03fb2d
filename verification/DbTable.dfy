/**
 * The table of calls as the server keeps it, each operation proved to take the
 * step of the same name.
 */
module DbTable {
  import opened Options
  import opened D = Db

  class Table {
    var calls: seq<Call>
    var driver: Option<Driver>
    var drivers: nat
    var configured: bool
    var nextId: nat
    var pending: int
    ghost var s: State

    ghost predicate Valid()
      reads this
    {
      && Inv(s) && s.calls == calls && s.driver == driver && s.drivers == drivers
      && s.configured == configured && s.next == nextId && s.pending == pending
    }

    constructor ()
      ensures Valid() && s == D.Start
    {
      calls, driver, drivers, configured, nextId, pending, s := [], None, 0, false, 1, 0, D.Start;
      StartInv();
    }

    // The call with this identifier, off the list.
    method TakeCall(id: nat) returns (call: Option<Call>)
      modifies this`calls, this`pending
      ensures var i := Find(old(calls), id);
              if i < |old(calls)|
              then call == Some(old(calls)[i]) && calls == old(calls)[..i] + old(calls)[i + 1..]
                && pending == old(pending) - 1
              else call == None && calls == old(calls) && pending == old(pending)
    {
      var i := 0;
      assert calls[0..] == calls;
      while i < |calls|
        invariant i <= |calls| && Find(calls, id) == i + Find(calls[i..], id)
      {
        if calls[i].id == id {
          call := Some(calls[i]);
          calls := calls[..i] + calls[i + 1..];
          pending := pending - 1;
          return;
        }
        assert calls[i..][1..] == calls[i + 1..];
        i := i + 1;
      }
      call := None;
    }

    // On the list before the driver is asked: it may answer from inside.
    method Submit(owner: Option<nat>, wants: bool) returns (id: Option<nat>)
      requires Valid()
      modifies this
      ensures Valid() && s == Do(old(s), D.Submit(owner, wants))
      ensures id == if old(driver).Some? && old(configured) then Some(old(nextId)) else None
    {
      ghost var a := D.Submit(owner, wants);
      StepKeeps(s, a);
      s := Do(s, a);
      if driver.None? {
        return None;
      }
      if !configured {
        return None;
      }
      var call := Call(nextId, wants, owner);
      nextId := nextId + 1;
      calls := [call] + calls;
      pending := pending + 1;
      return Some(call.id);
    }

    // The driver returns: if it refused, the call is withdrawn, unless the
    // driver answered it on the way out.
    method Answered(id: nat, ok: bool)
      requires Valid() && s.stack != [] && s.stack[0] == Submitting(id)
      modifies this
      ensures Valid() && s == Do(old(s), D.Answer(ok))
    {
      ghost var a := D.Answer(ok);
      StepKeeps(s, a);
      s := Do(s, a);
      if !ok {
        var call := TakeCall(id);
      }
    }

    // One driver at a time.
    method Register(mod: Option<nat>) returns (ok: bool)
      requires Valid()
      modifies this
      ensures Valid() && s == Do(old(s), D.Register(mod)) && ok == old(driver).None?
    {
      StepKeeps(s, D.Register(mod));
      s := Do(s, D.Register(mod));
      if driver.Some? {
        return false;
      }
      driver := Some(Driver(mod, drivers));
      drivers := drivers + 1;
      return true;
    }

    // The answer to a call: whether there is a callback to run, and whether
    // the result goes back to a driver now because there is none.
    method Complete(id: nat, data: Option<nat>) returns (run: bool, release: bool)
      requires Valid() && (data.Some? ==> data.value < drivers)
      modifies this
      ensures Valid() && s == Do(old(s), D.Complete(id, data))
      ensures run == exists c :: c in old(calls) && c.id == id && c.wants
      ensures release == (!run && data.Some? && driver.Some?) && driver == old(driver)
    {
      ghost var a := D.Complete(id, data);
      ghost var i := Find(calls, id);
      StepKeeps(s, a);
      s := Do(s, a);
      assert forall c :: c in calls && c.id == id ==> i < |calls| && c == calls[i];
      assert i < |calls| ==> calls[i] in calls;
      var call := TakeCall(id);
      run := call.Some? && call.value.wants;
      release := !run && data.Some? && driver.Some?;
    }

    // The callback has returned; true if the result goes back to the driver.
    method Released(result: Option<nat>) returns (release: bool)
      requires Valid() && s.stack != [] && s.stack[0] == Calling(result)
      modifies this`s
      ensures Valid() && s == Do(old(s), D.Release)
      ensures release == (result.Some? && driver.Some?)
    {
      StepKeeps(s, D.Release);
      s := Do(s, D.Release);
      release := result.Some? && driver.Some?;
    }

    // One turn of failing what is left.
    method FailNext() returns (call: Option<Call>)
      requires Valid() && s.stack != [] && s.stack[0].Failing?
      modifies this
      ensures Valid() && s == Do(old(s), D.FailNext)
      ensures call == if old(calls) == [] then None else Some(old(calls)[0])
    {
      StepKeeps(s, D.FailNext);
      s := Do(s, D.FailNext);
      if calls == [] {
        return None;
      }
      call := Some(calls[0]);
      calls := calls[1..];
      pending := pending - 1;
    }

    method DropModule(mod: nat)
      requires Valid()
      modifies this
      ensures Valid() && s == Do(old(s), D.DropModule(mod))
    {
      ghost var goal := Drops(s, 0, mod);
      var k := 0;
      while k < |calls|
        invariant k <= |calls| && Valid() && Drops(s, k, mod) == goal
        invariant driver == old(driver) && drivers == old(drivers) && configured == old(configured)
        decreases |calls| - k
      {
        if calls[k].owner == Some(mod) {
          TakeKeeps(s, k, Dropped(s.calls[k].id, mod));
          s := D.Take(s, k, Dropped(s.calls[k].id, mod));
          calls := calls[..k] + calls[k + 1..];
          pending := pending - 1;
        } else {
          k := k + 1;
        }
      }
      Withdrawn(Some(mod));
    }

    method Withdrawn(mod: Option<nat>)
      requires Valid()
      modifies this`driver, this`s
      ensures Valid() && s == Withdraw(old(s), mod)
    {
      Aside(s, Withdraw(s, mod));
      s := Withdraw(s, mod);
      if driver.None? || driver.value.mod != mod {
        return;
      }
      driver := None;
    }
  }
}
