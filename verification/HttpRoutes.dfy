/**
 * Routing: which handler a request goes to, and that the answer does not
 * depend on the order in which routes were claimed.
 */
module HttpRoutes {
  import opened Options
  import opened IrcCase

  const METHOD_MAX := 15
  const PATH_MAX := 255
  const ROUTES_MAX := 64

  // `key` is the method as it is compared.
  datatype Route = Route(mod: nat, key: string, path: string, handler: nat)

  predicate IsPrefix(r: Route) {
    r.path != "" && r.path[|r.path| - 1] == '/'
  }

  predicate Exact(r: Route, key: string, path: string) {
    r.key == key && r.path == path
  }

  // A path ending in a slash takes everything under it; any other only itself.
  predicate Matches(r: Route, key: string, path: string) {
    r.key == key && (r.path == path || (IsPrefix(r) && r.path <= path))
  }

  // No two claims on the same method and path.
  ghost predicate Unique(routes: seq<Route>) {
    forall i, j :: 0 <= i < j < |routes| ==> routes[i].key != routes[j].key || routes[i].path != routes[j].path
  }

  // The best match: nothing that matches is longer, and the whole path is as
  // long as a match can be.
  ghost predicate Best(routes: seq<Route>, key: string, path: string, r: Route) {
    r in routes && Matches(r, key, path)
    && forall q :: q in routes && Matches(q, key, path) ==> |q.path| <= |r.path|
  }

  lemma MatchesFit(r: Route, key: string, path: string)
    requires Matches(r, key, path)
    ensures |r.path| <= |path| && (|r.path| == |path| <==> r.path == path) && r.path == path[..|r.path|]
  {
  }

  // There is one best match at most, in whatever order the same routes were
  // registered: an exact match is best if there is one, and otherwise the
  // longest prefix.
  lemma OneBest(routes: seq<Route>, other: seq<Route>, key: string, path: string, r: Route, q: Route)
    requires Unique(routes) && forall x :: x in routes <==> x in other
    requires Best(routes, key, path, r) && Best(other, key, path, q)
    ensures r == q
    ensures Exact(r, key, path) <==> exists e :: e in other && Exact(e, key, path)
  {
    MatchesFit(r, key, path);
    MatchesFit(q, key, path);
    var i :| 0 <= i < |routes| && routes[i] == r;
    var j :| 0 <= j < |routes| && routes[j] == q;
    assert r.path == q.path;
    if e :| e in other && Exact(e, key, path) {
      assert Matches(e, key, path);
    }
  }

  class Router {
    var routes: seq<Route>

    ghost predicate Valid()
      reads this
    {
      && Unique(routes)
      && forall r :: r in routes ==> r.path != "" && r.path[0] == '/'
    }

    constructor ()
      ensures Valid() && routes == []
    {
      routes := [];
    }

    // The route a request goes to: an exact match at once, and otherwise the
    // longest prefix seen.
    method FindRoute(name: string, path: string) returns (r: Option<Route>)
      requires Valid()
      ensures r.Some? ==> Best(routes, Fold(name), path, r.value)
      ensures r.None? ==> forall q :: q in routes ==> !Matches(q, Fold(name), path)
    {
      var key := Fold(name);
      var bestLen := 0;
      r := None;
      for i := 0 to |routes|
        invariant r.None? ==> bestLen == 0
        invariant r.None? ==> forall j :: 0 <= j < i ==> !Matches(routes[j], key, path)
        invariant r.Some? ==> r.value in routes && Matches(r.value, key, path) && bestLen == |r.value.path|
        invariant r.Some? ==> forall j :: 0 <= j < i && Matches(routes[j], key, path) ==> |routes[j].path| <= bestLen
      {
        var q := routes[i];
        assert q in routes;
        if q.key == key {
          if q.path == path {
            ExactIsBest(routes, key, path, q);
            return Some(q);
          }
          if IsPrefix(q) && q.path <= path && |q.path| > bestLen {
            r, bestLen := Some(q), |q.path|;
          }
        }
      }
    }

    method Taken(key: string, path: string) returns (found: bool)
      ensures found <==> exists r :: r in routes && Exact(r, key, path)
    {
      for i := 0 to |routes|
        invariant forall j :: 0 <= j < i ==> !Exact(routes[j], key, path)
      {
        if Exact(routes[i], key, path) {
          assert routes[i] in routes;
          return true;
        }
      }
      return false;
    }

    method Count(mod: nat) returns (n: nat)
      ensures n == Owned(routes, mod)
    {
      n := 0;
      for i := 0 to |routes|
        invariant n == Owned(routes[..i], mod)
      {
        assert routes[..i + 1][..i] == routes[..i];
        if routes[i].mod == mod {
          n := n + 1;
        }
      }
      assert routes[..|routes|] == routes;
    }

    method AddRoute(mod: nat, name: string, path: string, handler: nat) returns (ok: bool)
      requires Valid()
      modifies this
      ensures Valid()
      ensures ok <==> && name != "" && path != "" && path[0] == '/' && |name| <= METHOD_MAX && |path| <= PATH_MAX
                      && (forall r :: r in old(routes) ==> !Exact(r, Fold(name), path))
                      && Owned(old(routes), mod) < ROUTES_MAX
      ensures routes == if ok then [Route(mod, Fold(name), path, handler)] + old(routes) else old(routes)
    {
      if name == "" || path == "" || path[0] != '/' {
        return false;
      }
      if |name| > METHOD_MAX || |path| > PATH_MAX {
        return false;
      }
      var taken := Taken(Fold(name), path);
      if taken {
        return false;
      }
      var n := Count(mod);
      if n >= ROUTES_MAX {
        return false;
      }
      assert forall i :: 0 <= i < |routes| ==> routes[i] in routes;
      routes := [Route(mod, Fold(name), path, handler)] + routes;
      return true;
    }

    // Only a module's own route can be given up by it.
    method DelRoute(mod: nat, name: string, path: string) returns (found: bool)
      requires Valid()
      modifies this
      ensures Valid()
      ensures found <==> exists r :: r in old(routes) && r.mod == mod && Exact(r, Fold(name), path)
      ensures forall r :: r in routes <==> r in old(routes) && !(r.mod == mod && Exact(r, Fold(name), path))
    {
      var key, i := Fold(name), 0;
      while i < |routes| && !(routes[i].mod == mod && Exact(routes[i], key, path))
        invariant i <= |routes| && forall j :: 0 <= j < i ==> !(routes[j].mod == mod && Exact(routes[j], key, path))
      {
        i := i + 1;
      }
      if i == |routes| {
        return false;
      }
      assert routes[i] in routes;
      Removal(routes, i);
      routes := routes[..i] + routes[i + 1..];
      return true;
    }

    method DropModule(mod: nat)
      requires Valid()
      modifies this
      ensures Valid() && forall r :: r in routes <==> r in old(routes) && r.mod != mod
    {
      var i := 0;
      while i < |routes|
        invariant i <= |routes| && Valid()
        invariant forall j :: 0 <= j < i ==> routes[j].mod != mod
        invariant forall r :: r in routes ==> r in old(routes)
        invariant forall r :: r in old(routes) && r.mod != mod ==> r in routes
        decreases |routes| - i
      {
        if routes[i].mod == mod {
          Removal(routes, i);
          routes := routes[..i] + routes[i + 1..];
        } else {
          i := i + 1;
        }
      }
    }
  }

  function Owned(routes: seq<Route>, mod: nat): nat {
    if routes == [] then 0
    else Owned(routes[..|routes| - 1], mod) + (if routes[|routes| - 1].mod == mod then 1 else 0)
  }

  lemma ExactIsBest(routes: seq<Route>, key: string, path: string, r: Route)
    requires r in routes && Exact(r, key, path)
    ensures Best(routes, key, path, r)
  {
    forall q | q in routes && Matches(q, key, path) ensures |q.path| <= |r.path| {
      MatchesFit(q, key, path);
    }
  }

  lemma Removal(routes: seq<Route>, i: nat)
    requires Unique(routes) && i < |routes|
    ensures Unique(routes[..i] + routes[i + 1..])
    ensures forall r :: r in routes[..i] + routes[i + 1..] <==> r in routes && r != routes[i]
    ensures forall r :: r in routes && r.key == routes[i].key && r.path == routes[i].path ==> r == routes[i]
  {
    var w := routes[..i] + routes[i + 1..];
    assert forall j :: 0 <= j < |w| ==> w[j] == routes[if j < i then j else j + 1];
    forall r | r in routes && r != routes[i] ensures r in w {
      var j :| 0 <= j < |routes| && routes[j] == r;
      assert w[if j < i then j else j - 1] == r;
    }
  }
}
