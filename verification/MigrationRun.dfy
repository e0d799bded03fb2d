/**
 * Applying and reverting: whatever is asked for and whatever fails, the
 * versions recorded as applied are always the first so many.
 */
module MigrationRun {
  import opened MigrationBuild

  // A command for a module that declares versions 1 to `declared`. A bound of
  // zero stands for the default; `works` is how many steps the database lets
  // through before one fails.
  datatype Cmd =
    | Apply(declared: nat, bound: nat, works: nat)
    | Revert(declared: nat, bound: nat, works: nat)

  // ----- What a command sets out to do --------------------------------------

  // Versions from v to `last` that are not applied yet, lowest first.
  function Missing(applied: set<nat>, v: nat, last: nat): seq<nat>
    decreases last + 1 - v
  {
    if v > last then []
    else (if v in applied then [] else [v]) + Missing(applied, v + 1, last)
  }

  // The newest declared version that is applied, or zero.
  function Highest(applied: set<nat>, n: nat): (r: nat)
    ensures r <= n && (r > 0 ==> r in applied)
    ensures forall v :: r < v <= n ==> v !in applied
  {
    if n == 0 || n in applied then n else Highest(applied, n - 1)
  }

  // Applied versions from `v` down to `lowest`, highest first.
  function There(applied: set<nat>, v: nat, lowest: nat): seq<nat>
    requires lowest > 0
  {
    if v < lowest then []
    else (if v in applied then [v] else []) + There(applied, v - 1, lowest)
  }

  function Steps(applied: set<nat>, c: Cmd): seq<nat> {
    if c.bound > c.declared then
      []
    else if c.Apply? then
      Missing(applied, 1, if c.bound > 0 then c.bound else c.declared)
    else
      var newest := Highest(applied, c.declared);
      if newest == 0 then [] else There(applied, newest, if c.bound > 0 then c.bound else newest)
  }

  method PlanApply(applied: set<nat>, declared: nat, bound: nat) returns (steps: seq<nat>)
    requires bound <= declared
    ensures steps == Steps(applied, Apply(declared, bound, 0))
  {
    steps := [];
    var v := 1;
    ghost var last := if bound > 0 then bound else declared;
    while v <= declared
      invariant 1 <= v <= declared + 1
      invariant v <= last + 1
      invariant steps + Missing(applied, v, last) == Missing(applied, 1, last)
    {
      if bound > 0 && v > bound {
        break;
      }
      if v !in applied {
        assert steps + ([v] + Missing(applied, v + 1, last)) == steps + [v] + Missing(applied, v + 1, last);
        steps := steps + [v];
      } else {
        assert [] + Missing(applied, v + 1, last) == Missing(applied, v + 1, last);
      }
      v := v + 1;
    }
  }

  method PlanRevert(applied: set<nat>, declared: nat, bound: nat) returns (steps: seq<nat>)
    requires bound <= declared
    ensures steps == Steps(applied, Revert(declared, bound, 0))
  {
    steps := [];
    var newest: nat := declared;
    while newest > 0 && newest !in applied
      invariant newest <= declared && Highest(applied, declared) == Highest(applied, newest)
    {
      newest := newest - 1;
    }
    if newest == 0 {
      return;
    }
    var lowest := if bound > 0 then bound else newest;
    var i := newest;
    while i >= lowest
      invariant 0 <= i <= newest
      invariant steps + There(applied, i, lowest) == There(applied, newest, lowest)
    {
      if i in applied {
        assert steps + ([i] + There(applied, i - 1, lowest)) == steps + [i] + There(applied, i - 1, lowest);
        steps := steps + [i];
      } else {
        assert [] + There(applied, i - 1, lowest) == There(applied, i - 1, lowest);
      }
      i := i - 1;
    }
  }

  // ----- Running it ---------------------------------------------------------

  function Min(a: nat, b: nat): nat {
    if a < b then a else b
  }

  function Recorded(applied: set<nat>, steps: seq<nat>, revert: bool): set<nat> {
    if steps == [] then
      applied
    else
      var before, v := Recorded(applied, steps[..|steps| - 1], revert), steps[|steps| - 1];
      if revert then before - {v} else before + {v}
  }

  // One step at a time, each recorded with what it did; the first that fails
  // ends the job and the ones before it stand.
  method RunJob(applied: set<nat>, steps: seq<nat>, revert: bool, works: nat) returns (table: set<nat>, done: nat)
    ensures done == Min(works, |steps|)
    ensures table == Recorded(applied, steps[..done], revert)
  {
    table, done := applied, 0;
    while done < |steps|
      invariant done <= |steps| && done <= works
      invariant table == Recorded(applied, steps[..done], revert)
    {
      if done == works {
        return;
      }
      assert steps[..done + 1][..done] == steps[..done];
      if revert {
        table := table - {steps[done]};
      } else {
        table := table + {steps[done]};
      }
      done := done + 1;
    }
  }

  function Done(applied: set<nat>, c: Cmd): nat {
    Min(c.works, |Steps(applied, c)|)
  }

  function After(applied: set<nat>, c: Cmd): set<nat> {
    Recorded(applied, Steps(applied, c)[..Done(applied, c)], c.Revert?)
  }

  // ----- Always a prefix ----------------------------------------------------

  // n versions from v on, upwards and downwards.
  function Up(v: nat, n: nat): seq<nat>
    decreases n
  {
    if n == 0 then [] else [v] + Up(v + 1, n - 1)
  }

  function Down(v: nat, n: nat): seq<nat>
    requires n <= v
  {
    if n == 0 then [] else [v] + Down(v - 1, n - 1)
  }

  lemma {:induction false} UpTake(v: nat, n: nat, m: nat)
    requires m <= n
    ensures |Up(v, n)| == n && Up(v, n)[..m] == Up(v, m)
    decreases n
  {
    if n > 0 {
      UpTake(v + 1, n - 1, if m > 0 then m - 1 else 0);
    }
  }

  lemma {:induction false} DownTake(v: nat, n: nat, m: nat)
    requires m <= n <= v
    ensures |Down(v, n)| == n && Down(v, n)[..m] == Down(v, m)
  {
    if n > 0 {
      DownTake(v - 1, n - 1, if m > 0 then m - 1 else 0);
    }
  }

  lemma {:induction false} UpLast(v: nat, n: nat)
    requires n > 0
    ensures Up(v, n) == Up(v, n - 1) + [v + n - 1]
    decreases n
  {
    if n > 1 {
      UpLast(v + 1, n - 1);
    }
  }

  lemma {:induction false} DownLast(v: nat, n: nat)
    requires 0 < n <= v
    ensures Down(v, n) == Down(v, n - 1) + [v - (n - 1)]
  {
    if n > 1 {
      DownLast(v - 1, n - 1);
    }
  }

  lemma {:induction false} MissingAfter(k: nat, v: nat, last: nat)
    requires 1 <= v
    ensures Missing(UpTo(k), v, last) == if v <= k then (if last <= k then [] else Up(k + 1, last - k))
                                         else if v <= last then Up(v, last + 1 - v) else []
    decreases last + 1 - v
  {
    UpToIs(k);
    if v <= last {
      MissingAfter(k, v + 1, last);
    }
  }

  lemma {:induction false} ThereDown(k: nat, v: nat, lowest: nat)
    requires lowest > 0 && v <= k
    ensures There(UpTo(k), v, lowest) == if v < lowest then [] else Down(v, v + 1 - lowest)
  {
    UpToIs(k);
    if v >= lowest {
      ThereDown(k, v - 1, lowest);
    }
  }

  lemma HighestOf(k: nat, n: nat)
    ensures Highest(UpTo(k), n) == Min(k, n)
  {
    UpToIs(k);
    if k <= n && k > 0 {
      assert k in UpTo(k);
    }
    if n < k && n > 0 {
      assert n in UpTo(k);
    }
  }

  lemma {:induction false} RecordUp(k: nat, m: nat)
    ensures Recorded(UpTo(k), Up(k + 1, m), false) == UpTo(k + m)
  {
    if m > 0 {
      UpLast(k + 1, m);
      RecordUp(k, m - 1);
      UpTake(k + 1, m - 1, 0);
      assert Up(k + 1, m)[..|Up(k + 1, m)| - 1] == Up(k + 1, m - 1);
    }
  }

  lemma {:induction false} RecordDown(k: nat, v: nat, m: nat)
    requires m <= v <= k
    ensures forall x :: x in Recorded(UpTo(k), Down(v, m), true) <==> 0 < x <= k && !(v - m < x <= v)
  {
    UpToIs(k);
    if m > 0 {
      DownLast(v, m);
      RecordDown(k, v, m - 1);
      DownTake(v, m - 1, 0);
      assert Down(v, m)[..|Down(v, m)| - 1] == Down(v, m - 1);
    }
  }

  // How far applying gets from k, and how far reverting.
  function Target(c: Cmd): nat {
    if c.bound > 0 then c.bound else c.declared
  }

  lemma ApplyReaches(k: nat, c: Cmd)
    requires c.Apply? && c.bound <= c.declared
    ensures After(UpTo(k), c) == UpTo(k + Min(c.works, if Target(c) > k then Target(c) - k else 0))
  {
    MissingAfter(k, 1, Target(c));
    var n := if Target(c) > k then Target(c) - k else 0;
    assert Steps(UpTo(k), c) == Up(k + 1, n) by {
      if k == 0 { assert Target(c) >= 1 ==> Target(c) + 1 - 1 == n; }
    }
    UpTake(k + 1, n, Min(c.works, n));
    RecordUp(k, Min(c.works, n));
  }

  // How many versions a revert would take away.
  function Depth(k: nat, c: Cmd): nat
    requires k <= c.declared
  {
    if k == 0 then 0
    else if c.bound == 0 then 1
    else if c.bound <= k then k + 1 - c.bound
    else 0
  }

  lemma RevertReaches(k: nat, c: Cmd)
    requires c.Revert? && c.bound <= c.declared && k <= c.declared
    ensures After(UpTo(k), c) == UpTo(k - Min(c.works, Depth(k, c)))
  {
    HighestOf(k, c.declared);
    var n := Depth(k, c);
    if k == 0 {
      assert Steps(UpTo(0), c) == [];
      assert Steps(UpTo(0), c)[..0] == [];
    } else {
      var lowest := if c.bound > 0 then c.bound else k;
      ThereDown(k, k, lowest);
      assert Steps(UpTo(k), c) == Down(k, n);
      DownTake(k, n, Min(c.works, n));
      RecordDown(k, k, Min(c.works, n));
      UpToIs(k - Min(c.works, n));
    }
  }

  // A module that declares fewer versions than are applied: a revert that gets
  // anywhere then takes from the middle.
  predicate Short(k: nat, c: Cmd) {
    c.Revert? && c.bound <= c.declared < k && c.declared > 0 && c.works > 0
  }

  // What one command leaves of the first k versions.
  function Next(k: nat, c: Cmd): nat
    requires !Short(k, c)
  {
    if c.bound > c.declared then k
    else if c.Apply? then k + Min(c.works, if Target(c) > k then Target(c) - k else 0)
    else if c.declared < k then k
    else k - Min(c.works, Depth(k, c))
  }

  lemma StaysPrefix(k: nat, c: Cmd)
    requires !Short(k, c)
    ensures After(UpTo(k), c) == UpTo(Next(k, c))
    ensures k <= c.declared ==> Next(k, c) <= c.declared
  {
    if c.bound > c.declared {
      assert Steps(UpTo(k), c)[..Done(UpTo(k), c)] == [];
    } else if c.Apply? {
      ApplyReaches(k, c);
    } else if c.declared < k {
      ShortTakes(k, c);
    } else {
      RevertReaches(k, c);
    }
  }

  // What reverting does to versions the module no longer knows all of.
  lemma ShortTakes(k: nat, c: Cmd)
    requires c.Revert? && c.bound <= c.declared < k
    ensures c.declared == 0 || c.works == 0 ==> After(UpTo(k), c) == UpTo(k)
    ensures c.declared > 0 && c.works > 0 ==> k in After(UpTo(k), c) && c.declared !in After(UpTo(k), c)
  {
    var n := c.declared;
    HighestOf(k, n);
    if n == 0 {
      assert Steps(UpTo(k), c) == [];
      assert Steps(UpTo(k), c)[..0] == [];
    } else {
      var lowest := if c.bound > 0 then c.bound else n;
      ThereDown(k, n, lowest);
      var depth := n + 1 - lowest;
      var m := Min(c.works, depth);
      DownTake(n, depth, m);
      assert Steps(UpTo(k), c) == Down(n, depth) && Done(UpTo(k), c) == m;
      RecordDown(k, n, m);
      if m == 0 {
        assert Down(n, depth)[..0] == [];
      }
    }
  }

  ghost predicate IsPrefix(applied: set<nat>) {
    exists j :: applied == UpTo(j)
  }

  // After one command what is applied is still a prefix exactly when it is not
  // a revert that gets anywhere for a module declaring fewer than are applied.
  lemma ShrunkIff(k: nat, c: Cmd)
    ensures IsPrefix(After(UpTo(k), c)) <==> !Short(k, c)
  {
    if Short(k, c) {
      ShortTakes(k, c);
      forall j ensures After(UpTo(k), c) != UpTo(j) {
        UpToIs(j);
      }
    } else {
      StaysPrefix(k, c);
    }
  }

  // Versions 1 to 3 are applied, the module now declares two, and one is
  // reverted: 1 and 3 are left.
  lemma ShrunkLeavesGap()
    ensures After(UpTo(3), Revert(2, 0, 1)) == {1, 3} && !IsPrefix({1, 3})
  {
    var c, t := Revert(2, 0, 1), After(UpTo(3), Revert(2, 0, 1));
    HighestOf(3, 2);
    ThereDown(3, 2, 2);
    DownTake(2, 1, 1);
    assert Steps(UpTo(3), c) == Down(2, 1) && Done(UpTo(3), c) == 1;
    RecordDown(3, 2, 1);
    assert t == {1, 3};
    ShrunkIff(3, c);
  }

  // Of a run of commands: none is such a revert.
  ghost predicate NeverShort(k: nat, cs: seq<Cmd>)
    decreases |cs|
  {
    cs == [] || (!Short(k, cs[0]) && NeverShort(Next(k, cs[0]), cs[1..]))
  }

  // At every point of the run what is applied is a prefix.
  ghost predicate Prefixes(applied: set<nat>, cs: seq<Cmd>)
    decreases |cs|
  {
    IsPrefix(applied) && (cs == [] || Prefixes(After(applied, cs[0]), cs[1..]))
  }

  // From nothing, or from any prefix, over any sequence of commands that do not
  // overlap, with any steps failing and any number of versions declared from
  // one command to the next: what is applied is versions 1 to some k all the
  // way through if and only if no revert runs short.
  lemma {:induction false} AlwaysPrefixIff(k: nat, cs: seq<Cmd>)
    ensures Prefixes(UpTo(k), cs) <==> NeverShort(k, cs)
    decreases |cs|
  {
    assert IsPrefix(UpTo(k));
    if cs != [] {
      ShrunkIff(k, cs[0]);
      if !Short(k, cs[0]) {
        StaysPrefix(k, cs[0]);
        AlwaysPrefixIff(Next(k, cs[0]), cs[1..]);
      }
    }
  }

  // A module that never declares fewer versions than it did before never runs
  // short, whatever it is asked.
  lemma {:induction false} GrowingNeverShort(k: nat, cs: seq<Cmd>)
    requires cs != [] ==> k <= cs[0].declared
    requires forall i, j :: 0 <= i < j < |cs| ==> cs[i].declared <= cs[j].declared
    ensures NeverShort(k, cs)
    decreases |cs|
  {
    if cs != [] {
      StaysPrefix(k, cs[0]);
      assert forall i :: 0 <= i < |cs[1..]| ==> cs[1..][i] == cs[i + 1];
      GrowingNeverShort(Next(k, cs[0]), cs[1..]);
    }
  }

  // Run again after the fix, a command reaches what it was meant to reach.
  lemma RerunReaches(k: nat, upto: nat, n: nat, first: nat, again: nat)
    requires k <= n && upto <= n && again >= n
    ensures var c, d := Apply(n, upto, first), Apply(n, upto, again);
            After(After(UpTo(k), c), d) == UpTo(if Target(d) > k then Target(d) else k)
  {
    var c, d := Apply(n, upto, first), Apply(n, upto, again);
    StaysPrefix(k, c);
    StaysPrefix(Next(k, c), d);
  }
}
