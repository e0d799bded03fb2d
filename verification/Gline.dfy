/**
 * One global G-line and everything that can change it: its version and its
 * lifetime only grow, and whether it is in force is settled by its history.
 */
module Gline {
  import opened Options
  import opened IrcCase

  const MAX_EXPIRE := 604800

  datatype Local = Global | Activated | Deactivated

  datatype Line = Line(active: bool, local: Local, reason: string, expire: int, lastmod: int, lifetime: int)

  datatype Action = Activate | Deactivate | LocalActivate | LocalDeactivate | Modify

  // A change as it is asked for: which of the fields it means to set, whether
  // the usual limits are overridden, and when it comes.
  datatype Change = Change(action: Action, reason: Option<string>, expire: int, lastmod: int, lifetime: int,
                           setExpire: bool, setLifetime: bool, setReason: bool, force: bool, now: int)

  predicate IsActive(g: Line) {
    (g.active && g.local != Deactivated) || g.local == Activated
  }

  predicate IsLocal(a: Action) {
    a == LocalActivate || a == LocalDeactivate
  }

  function Max(a: int, b: int): int {
    if a < b then b else a
  }

  // ----- What a change does -------------------------------------------------

  // Only a newer version changes a line; a local change has no version.
  predicate Newer(g: Line, c: Change) {
    IsLocal(c.action) || g.lastmod < c.lastmod
  }

  // An expiry that is being set has to be in the future, but not far.
  predicate ExpiryOk(c: Change) {
    c.setExpire && c.expire != 0 && !c.force ==> c.now < c.expire <= c.now + MAX_EXPIRE
  }

  predicate SetsExpire(g: Line, c: Change) {
    c.setExpire && c.expire != 0 && c.expire != g.expire
  }

  // The expiry as the rest of the change sees it.
  function Expiry(g: Line, c: Change): int {
    if c.setExpire && c.expire != 0 && c.expire == g.expire then 0 else c.expire
  }

  function Lifetime(g: Line, c: Change): int {
    Max(if c.setLifetime && c.lifetime != 0 then c.lifetime else g.lifetime, Expiry(g, c))
  }

  predicate SetsReason(g: Line, c: Change) {
    c.setReason && !(c.reason.Some? && Fold(g.reason) == Fold(c.reason.value))
  }

  // What is left of the action: nothing for a state the line is in already,
  // nor for a line that has run out.
  function Effect(g: Line, c: Change): Action {
    if || (c.action == Activate && g.active)
       || (c.action == Deactivate && !g.active)
       || (c.action == LocalActivate && g.local == Activated)
       || (c.action == LocalDeactivate && g.local == Deactivated)
       || Max(g.expire, Expiry(g, c)) <= c.now
    then Modify else c.action
  }

  function Changed(g: Line, c: Change): Line {
    var a := Effect(g, c);
    var l := Lifetime(g, c);
    if !Newer(g, c) || !ExpiryOk(c) then
      g
    else if !SetsExpire(g, c) && l <= g.lifetime && !SetsReason(g, c) && a == Modify then
      g
    else
      Line(if a == Activate then true else if a == Deactivate then false else g.active,
           if a == Activate || a == Deactivate then Global
           else if a == LocalActivate then Activated
           else if a == LocalDeactivate then Deactivated
           else g.local,
           if SetsReason(g, c) && c.reason.Some? then c.reason.value else g.reason,
           if SetsExpire(g, c) then c.expire else g.expire,
           if IsLocal(a) then g.lastmod else c.lastmod,
           Max(g.lifetime, l))
  }

  class Record {
    var line: Line

    constructor (line: Line)
      ensures this.line == line
    {
      this.line := line;
    }

    // What of a change is really one.
    method Weigh(c: Change) returns (ok: bool, setExpire: bool, expire: int, setLifetime: bool, lifetime: int,
        setReason: bool, action: Action)
      ensures ok == (Newer(line, c) && ExpiryOk(c))
      ensures ok ==> setExpire == SetsExpire(line, c) && expire == Expiry(line, c)
      ensures ok ==> lifetime == Lifetime(line, c) && setLifetime == (lifetime > line.lifetime)
      ensures ok ==> setReason == SetsReason(line, c) && action == Effect(line, c)
    {
      ok, setExpire, expire, setLifetime, lifetime, setReason, action := false, c.setExpire, c.expire, false,
        c.lifetime, c.setReason, c.action;
      if !IsLocal(c.action) {
        if line.lastmod > c.lastmod {
          return;
        }
        if line.lastmod == c.lastmod {
          return;
        }
      }
      if setExpire && expire != 0 {
        if !c.force && (expire <= c.now || expire > c.now + MAX_EXPIRE) {
          return;
        }
      } else {
        setExpire := false;
      }
      if setExpire && expire == line.expire {
        setExpire := false;
        expire := 0;
      }
      if !c.setLifetime || lifetime == 0 {
        lifetime := line.lifetime;
      }
      lifetime := Max(lifetime, expire);
      setLifetime := lifetime > line.lifetime;
      if setReason && c.reason.Some? {
        var same := Same(line.reason, c.reason.value);
        if same {
          setReason := false;
        }
      }
      if || (action == Activate && line.active) || (action == Deactivate && !line.active)
         || (action == LocalActivate && line.local == Activated)
         || (action == LocalDeactivate && line.local == Deactivated)
         || Max(line.expire, expire) <= c.now
      {
        action := Modify;
      }
      ok := true;
    }

    // In place, field by field, in the order the server does it.
    method Change(c: Change)
      modifies this
      ensures line == Changed(old(line), c)
    {
      var ok, setExpire, expire, setLifetime, lifetime, setReason, action := Weigh(c);
      if !ok {
        return;
      }
      if !setExpire && !setLifetime && !setReason && action == Modify {
        return;
      }
      if !IsLocal(action) {
        line := line.(lastmod := c.lastmod);
      }
      match action {
        case Activate => line := line.(active := true, local := Global);
        case Deactivate => line := line.(active := false, local := Global);
        case LocalActivate => line := line.(local := Activated);
        case LocalDeactivate => line := line.(local := Deactivated);
        case Modify =>
      }
      if setExpire {
        line := line.(expire := expire);
      }
      if setLifetime {
        line := line.(lifetime := lifetime);
      }
      if setReason && c.reason.Some? {
        line := line.(reason := c.reason.value);
      }
    }
  }

  // ----- What only grows ----------------------------------------------------

  // The version of a line never goes back - except that a local change to a
  // line that has run out, or to the local state it already has, which can then
  // only touch its other fields, leaves it whatever version the change carried.
  lemma VersionGrows(g: Line, c: Change)
    ensures Changed(g, c).lifetime >= g.lifetime
    ensures !IsLocal(c.action) ==> Changed(g, c).lastmod >= g.lastmod
    ensures !IsLocal(c.action) && Changed(g, c) != g ==> Changed(g, c).lastmod == c.lastmod > g.lastmod
    ensures Changed(g, c).lastmod < g.lastmod <==>
              && IsLocal(c.action) && c.lastmod < g.lastmod && ExpiryOk(c) && Effect(g, c) == Modify
              && (SetsExpire(g, c) || Lifetime(g, c) > g.lifetime || SetsReason(g, c))
  {
  }

  // A local change that asks for nothing but the local state - the only kind
  // the commands make - keeps the version.
  predicate Plain(c: Change) {
    IsLocal(c.action) ==> !c.setExpire && !c.setLifetime && !c.setReason && c.expire == 0
  }

  // A line that ran out at 10 and whose version is 5, given a new reason by a
  // local change at 20 that carries version 3: its version is 3.
  lemma VersionFalls()
    ensures var g := Line(true, Global, "", 10, 5, 10);
            var c := Change(LocalActivate, Some("x"), 0, 3, 0, false, false, true, false, 20);
            Changed(g, c).lastmod == 3
  {
    assert |Fold("")| == 0 && |Fold("x")| == 1;
  }

  lemma PlainKeepsVersion(g: Line, c: Change)
    requires Plain(c) && g.lifetime >= 0
    ensures Changed(g, c).lastmod >= g.lastmod && Changed(g, c).lifetime >= 0
    ensures IsLocal(c.action) ==> Changed(g, c) == g.(local := Changed(g, c).local)
  {
  }

  function After(g: Line, cs: seq<Change>): Line
    decreases |cs|
  {
    if cs == [] then g else After(Changed(g, cs[0]), cs[1..])
  }

  lemma {:induction false} NeverBack(g: Line, cs: seq<Change>)
    requires g.lifetime >= 0 && forall i :: 0 <= i < |cs| ==> Plain(cs[i])
    ensures After(g, cs).lastmod >= g.lastmod && After(g, cs).lifetime >= g.lifetime
    decreases |cs|
  {
    if cs != [] {
      PlainKeepsVersion(g, cs[0]);
      VersionGrows(g, cs[0]);
      assert forall i :: 0 <= i < |cs[1..]| ==> cs[1..][i] == cs[i + 1];
      NeverBack(Changed(g, cs[0]), cs[1..]);
    }
  }

  // ----- Whether it is in force ---------------------------------------------

  datatype Event = Flipped(on: bool) | Overridden(on: bool) | Nothing

  // What a change means for the line being in force: a global change of state,
  // a local override, or neither.
  function EventOf(g: Line, c: Change): Event {
    if !Newer(g, c) || !ExpiryOk(c) || Max(g.expire, Expiry(g, c)) <= c.now then Nothing
    else match c.action
      case Activate => if g.active then Nothing else Flipped(true)
      case Deactivate => if g.active then Flipped(false) else Nothing
      case LocalActivate => Overridden(true)
      case LocalDeactivate => Overridden(false)
      case Modify => Nothing
  }

  function History(g: Line, cs: seq<Change>): seq<Event>
    decreases |cs|
  {
    if cs == [] then [] else [EventOf(g, cs[0])] + History(Changed(g, cs[0]), cs[1..])
  }

  // The last override since the last global change of state, or else that
  // state: `flag` and `override` are how it stood before.
  function InForce(es: seq<Event>, flag: bool, override: Option<bool>): bool
    decreases |es|
  {
    if es == [] then
      if override.Some? then override.value else flag
    else
      match es[0]
      case Flipped(on) => InForce(es[1..], on, None)
      case Overridden(on) => InForce(es[1..], flag, Some(on))
      case Nothing => InForce(es[1..], flag, override)
  }

  function OverrideOf(g: Line): Option<bool> {
    match g.local
    case Global => None
    case Activated => Some(true)
    case Deactivated => Some(false)
  }

  lemma EventIs(g: Line, c: Change)
    ensures var t := Changed(g, c);
            match EventOf(g, c)
            case Flipped(on) => t.active == on && OverrideOf(t) == None
            case Overridden(on) => t.active == g.active && OverrideOf(t) == Some(on)
            case Nothing => t.active == g.active && t.local == g.local
  {
  }

  // After any changes, global and local, a line is in force exactly as its
  // last local override since the last global change of state says, and
  // without one as that state says.
  lemma {:induction false} InForceByHistory(g: Line, cs: seq<Change>)
    ensures IsActive(After(g, cs)) == InForce(History(g, cs), g.active, OverrideOf(g))
    decreases |cs|
  {
    if cs != [] {
      var t, h := Changed(g, cs[0]), History(g, cs);
      EventIs(g, cs[0]);
      InForceByHistory(t, cs[1..]);
      assert h[0] == EventOf(g, cs[0]) && h[1..] == History(t, cs[1..]);
    }
  }
}
