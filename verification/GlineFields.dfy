/**
 * Every field of a G-line, told from the changes alone: each change that is
 * taken leaves its mark, and what a line says is what the last mark says.
 */
module GlineFields {
  import opened Options
  import opened IrcCase
  import opened Gline

  const WEEK := 7 * 24 * 60 * 60

  // A change comes with a newer version, unless it is local, and an expiry it
  // sets without force is ahead by a week at most.
  predicate Taken(g: Line, c: Change) {
    && (c.action == LocalActivate || c.action == LocalDeactivate || c.lastmod > g.lastmod)
    && (c.setExpire && c.expire != 0 && !c.force ==> c.now < c.expire && c.expire - c.now <= WEEK)
  }

  predicate NamesExpiry(c: Change) { c.setExpire && c.expire != 0 }

  // The server compares reasons without case, and keeps the one it has.
  predicate NamesOther(g: Line, c: Change) {
    c.setReason && c.reason.Some? && Fold(c.reason.value) != Fold(g.reason)
  }

  // How long a change wants the line remembered: as long as it says, and until
  // the expiry it carries, which counts as none if it is set and is the one
  // there is.
  predicate Remembers(g: Line, c: Change, until: int) {
    || (c.setLifetime && c.lifetime != 0 && until == c.lifetime)
    || until == if c.setExpire && c.expire == g.expire then 0 else c.expire
  }

  function At(g: Line, cs: seq<Change>, i: nat): Line
    requires i <= |cs|
  {
    After(g, cs[..i])
  }

  lemma {:induction false} AfterBoth(g: Line, xs: seq<Change>, ys: seq<Change>)
    ensures After(g, xs + ys) == After(After(g, xs), ys)
    decreases |xs|
  {
    if xs == [] {
      assert xs + ys == ys;
    } else {
      assert (xs + ys)[1..] == xs[1..] + ys;
      AfterBoth(Changed(g, xs[0]), xs[1..], ys);
    }
  }

  lemma AtNext(g: Line, cs: seq<Change>, i: nat)
    requires i < |cs|
    ensures At(g, cs, i + 1) == Changed(At(g, cs, i), cs[i])
  {
    assert cs[..i + 1] == cs[..i] + [cs[i]];
    AfterBoth(g, cs[..i], [cs[i]]);
    assert [cs[i]][1..] == [];
  }

  // ----- Expiry -------------------------------------------------------------

  // The change that the expiry comes from is the last that was taken and named
  // one; if none was, the expiry is the line's own.
  lemma {:induction false} ExpiryIsTheLastNamed(g: Line, cs: seq<Change>, n: nat) returns (k: nat)
    requires n <= |cs|
    ensures k <= n
    ensures forall i :: k <= i < n ==> !(Taken(At(g, cs, i), cs[i]) && NamesExpiry(cs[i]))
    ensures k == 0 ==> At(g, cs, n).expire == g.expire
    ensures k > 0 ==> Taken(At(g, cs, k - 1), cs[k - 1]) && NamesExpiry(cs[k - 1])
    ensures k > 0 ==> At(g, cs, n).expire == cs[k - 1].expire
  {
    if n == 0 {
      return 0;
    }
    AtNext(g, cs, n - 1);
    k := ExpiryIsTheLastNamed(g, cs, n - 1);
    if Taken(At(g, cs, n - 1), cs[n - 1]) && NamesExpiry(cs[n - 1]) {
      k := n;
    }
  }

  // Without force, an expiry that is named is refused, with all the rest of
  // the change, if and only if it is not in the future or over a week ahead.
  lemma RefusedIff(g: Line, c: Change)
    requires c.setExpire && c.expire != 0 && !c.force && c.expire != g.expire
    requires c.action == LocalActivate || c.action == LocalDeactivate || c.lastmod > g.lastmod
    ensures Changed(g, c) == g <==> c.expire <= c.now || c.expire > c.now + WEEK
    ensures Changed(g, c).expire == c.expire <==> c.now < c.expire <= c.now + WEEK
  {
  }

  // ----- Reason -------------------------------------------------------------

  lemma {:induction false} ReasonIsTheLastOther(g: Line, cs: seq<Change>, n: nat) returns (k: nat)
    requires n <= |cs|
    ensures k <= n
    ensures forall i :: k <= i < n ==> !(Taken(At(g, cs, i), cs[i]) && NamesOther(At(g, cs, i), cs[i]))
    ensures k == 0 ==> At(g, cs, n).reason == g.reason
    ensures k > 0 ==> Taken(At(g, cs, k - 1), cs[k - 1]) && NamesOther(At(g, cs, k - 1), cs[k - 1])
    ensures k > 0 ==> cs[k - 1].reason == Some(At(g, cs, n).reason)
  {
    if n == 0 {
      return 0;
    }
    AtNext(g, cs, n - 1);
    k := ReasonIsTheLastOther(g, cs, n - 1);
    if Taken(At(g, cs, n - 1), cs[n - 1]) && NamesOther(At(g, cs, n - 1), cs[n - 1]) {
      k := n;
    }
  }

  // ----- Lifetime -----------------------------------------------------------

  // The lifetime is the longest any change that was taken wanted, or the
  // line's own.
  lemma {:induction false} LifetimeIsTheLongest(g: Line, cs: seq<Change>, n: nat) returns (k: nat)
    requires n <= |cs|
    ensures g.lifetime <= At(g, cs, n).lifetime
    ensures forall i, until :: 0 <= i < n && Taken(At(g, cs, i), cs[i]) && Remembers(At(g, cs, i), cs[i], until)
              ==> until <= At(g, cs, n).lifetime
    ensures k <= n && (k == 0 ==> At(g, cs, n).lifetime == g.lifetime)
    ensures k > 0 ==> Taken(At(g, cs, k - 1), cs[k - 1])
                      && Remembers(At(g, cs, k - 1), cs[k - 1], At(g, cs, n).lifetime)
  {
    if n == 0 {
      return 0;
    }
    AtNext(g, cs, n - 1);
    k := LifetimeIsTheLongest(g, cs, n - 1);
    if At(g, cs, n).lifetime != At(g, cs, n - 1).lifetime {
      k := n;
    }
  }

  // ----- Version ------------------------------------------------------------

  // A change is seen when it is taken and something is different after it. Its
  // version is then the line's, unless all it did was to set the local state.
  lemma VersionIs(g: Line, c: Change)
    ensures var t := Changed(g, c);
            t != g && t.local == g.local ==> t.lastmod == c.lastmod
    ensures var t := Changed(g, c);
            t.local != g.local && (c.action == LocalActivate || c.action == LocalDeactivate) ==> t.lastmod == g.lastmod
    ensures var t := Changed(g, c);
            t != g && !(c.action == LocalActivate || c.action == LocalDeactivate) ==> t.lastmod == c.lastmod
  {
  }
}
