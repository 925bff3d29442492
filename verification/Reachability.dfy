/** The early-closing search still finds a route whenever any walk over the pools reaches the target. */
module Reachability {
  import opened Prelude
  import opened Pools
  import opened RouteSearch

  /** Some pool trades `a` for `b`. */
  ghost predicate Edge(pools: seq<Pool>, a: Denom, b: Denom) {
    exists p :: p in pools && Joins(p, a, b)
  }

  predicate Joins(p: Pool, a: Denom, b: Denom) {
    p.Tradable()
    && ((p.assets[0].denom == a && p.assets[1].denom == b) || (p.assets[1].denom == a && p.assets[0].denom == b))
  }

  /** A walk may revisit denoms and reuse pools. */
  ghost predicate Walk(pools: seq<Pool>, from: Denom, to: Denom, w: seq<Denom>) {
    && w != [] && w[0] == from && w[|w| - 1] == to
    && forall i :: 0 <= i < |w| - 1 ==> Edge(pools, w[i], w[i + 1])
  }

  ghost predicate Reachable(pools: seq<Pool>, from: Denom, to: Denom) {
    exists w :: Walk(pools, from, to, w)
  }

  ghost predicate Shortest(pools: seq<Pool>, from: Denom, to: Denom, w: seq<Denom>) {
    Walk(pools, from, to, w) && forall v :: Walk(pools, from, to, v) ==> |w| <= |v|
  }

  lemma {:induction false} ShortestExists(pools: seq<Pool>, from: Denom, to: Denom, w: seq<Denom>)
    returns (m: seq<Denom>)
    requires Walk(pools, from, to, w)
    ensures Shortest(pools, from, to, m)
    decreases |w|
  {
    if v :| Walk(pools, from, to, v) && |v| < |w| {
      m := ShortestExists(pools, from, to, v);
    } else {
      m := w;
    }
  }

  /** Cutting a walk short where it could go straight on to a later denom. */
  lemma {:induction false} ShortcutWalk(pools: seq<Pool>, from: Denom, to: Denom, w: seq<Denom>, i: nat, j: nat)
    requires Walk(pools, from, to, w) && i < j < |w|
    requires Edge(pools, w[i], w[j]) || w[i] == w[j]
    ensures exists v :: Walk(pools, from, to, v)
                        && |v| == if w[i] == w[j] then |w| - (j - i) else |w| + 1 - (j - i)
  {
    if w[i] == w[j] {
      assert Walk(pools, from, to, w[..i] + w[j..]);
    } else {
      assert Walk(pools, from, to, w[..i + 1] + w[j..]);
    }
  }

  /** A shortest walk repeats no denom and meets the target's neighbours only at its last step. */
  lemma {:induction false} ShortestIsSimple(pools: seq<Pool>, from: Denom, to: Denom, m: seq<Denom>)
    requires Shortest(pools, from, to, m)
    ensures NoDuplicates(m)
    ensures forall i :: 0 <= i < |m| - 2 ==> !Edge(pools, m[i], to)
  {
    forall i, j | 0 <= i < j < |m|
      ensures m[i] != m[j]
    {
      if m[i] == m[j] {
        ShortcutWalk(pools, from, to, m, i, j);
      }
    }
    forall i | 0 <= i < |m| - 2
      ensures !Edge(pools, m[i], to)
    {
      if Edge(pools, m[i], to) {
        ShortcutWalk(pools, from, to, m, i, |m| - 1);
      }
    }
  }

  /** The route that follows `m`, one pool for each step. */
  lemma {:induction false} RouteAlong(pools: seq<Pool>, m: seq<Denom>) returns (r: Route)
    requires m != []
    requires forall i :: 0 <= i < |m| - 1 ==> Edge(pools, m[i], m[i + 1])
    ensures |r| == |m| - 1
    ensures forall i :: 0 <= i < |r| ==> r[i].tokenOut == m[i + 1]
    ensures forall i :: 0 <= i < |r| ==> FollowsEdge(pools, m[i], m[i + 1], r[i])
  {
    if |m| == 1 {
      r := [];
    } else {
      var n := |m| - 1;
      var front := RouteAlong(pools, m[..n]);
      assert Edge(pools, m[n - 1], m[n]);
      var p :| p in pools && Joins(p, m[n - 1], m[n]);
      r := front + [HopThrough(p, m[n - 1])];
    }
  }

  ghost predicate FollowsEdge(pools: seq<Pool>, a: Denom, b: Denom, hop: RouteHop) {
    exists p :: p in pools && Joins(p, a, b) && hop == HopThrough(p, a)
  }

  /** A pool joins one pair of denoms, so hops along a simple walk use different pools. */
  lemma {:induction false} SimpleWalkUsesDistinctPools(pools: seq<Pool>, m: seq<Denom>, r: Route, i: nat, j: nat)
    requires UniqueIds(pools) && NoDuplicates(m) && |r| == |m| - 1 && i < j < |r|
    requires FollowsEdge(pools, m[i], m[i + 1], r[i]) && FollowsEdge(pools, m[j], m[j + 1], r[j])
    ensures r[i].poolId != r[j].poolId
  {
    var p :| p in pools && Joins(p, m[i], m[i + 1]) && r[i] == HopThrough(p, m[i]);
    var q :| q in pools && Joins(q, m[j], m[j + 1]) && r[j] == HopThrough(q, m[j]);
  }

  lemma {:induction false} ShortestWalkGivesRoute(pools: seq<Pool>, from: Denom, to: Denom, m: seq<Denom>)
    returns (r: Route)
    requires UniqueIds(pools) && from != to && Shortest(pools, from, to, m)
    ensures IsRoute(pools, from, to, r)
  {
    ShortestIsSimple(pools, from, to, m);
    r := RouteAlong(pools, m);
    forall i | 0 <= i < |r|
      ensures DenomAt(from, r, i) == m[i] && FreshHop(pools, from, r, i)
    {
      forall j | 0 <= j < i
        ensures r[j].poolId != r[i].poolId
      {
        SimpleWalkUsesDistinctPools(pools, m, r, j, i);
      }
      assert FollowsEdge(pools, m[i], m[i + 1], r[i]);
      var p :| p in pools && Joins(p, m[i], m[i + 1]) && r[i] == HopThrough(p, m[i]);
      assert p.id !in UsedPools(r[..i]);
    }
    forall i | 0 <= i < |r| - 1
      ensures !CouldClose(pools, from, to, r, i)
    {
      assert !Edge(pools, m[i], to) && DenomAt(from, r, i) == m[i];
      ClosingNeedsAnEdge(pools, from, to, r, i);
    }
  }

  lemma {:induction false} ClosingNeedsAnEdge(pools: seq<Pool>, from: Denom, to: Denom, r: Route, i: nat)
    requires i <= |r|
    ensures CouldClose(pools, from, to, r, i) ==> Edge(pools, DenomAt(from, r, i), to)
  {
    var d := DenomAt(from, r, i);
    forall p | p in pools && p.Holds(d) && p.Holds(to) && d != to
      ensures Edge(pools, d, to)
    {
      assert Joins(p, d, to);
    }
  }

  lemma {:induction false} HopJoins(p: Pool, d: Denom)
    requires p.Holds(d)
    ensures Joins(p, d, HopThrough(p, d).tokenOut)
  {
  }

  lemma {:induction false} RouteGivesWalk(pools: seq<Pool>, from: Denom, to: Denom, r: Route)
    requires IsRoute(pools, from, to, r)
    ensures Reachable(pools, from, to)
  {
    var w := seq(|r| + 1, i requires 0 <= i <= |r| => DenomAt(from, r, i));
    forall i | 0 <= i < |r|
      ensures Edge(pools, w[i], w[i + 1])
    {
      assert FreshHop(pools, from, r, i);
      var d := DenomAt(from, r, i);
      var p :| p in pools && p.Holds(d) && r[i] == HopThrough(p, d);
      HopJoins(p, d);
      assert w[i] == d && w[i + 1] == r[i].tokenOut;
    }
    assert Walk(pools, from, to, w);
  }

  /** For two different denoms, getRoutes finds something exactly when the target can be reached at all. */
  lemma {:induction false} RoutesIffReachable(pools: seq<Pool>, from: Denom, to: Denom)
    requires UniqueIds(pools) && from != to
    ensures Search(from, to, pools, []) != [] <==> Reachable(pools, from, to)
  {
    var found := Search(from, to, pools, []);
    if found != [] {
      GetRoutesIsExact(pools, from, to, found[0]);
      RouteGivesWalk(pools, from, to, found[0]);
    }
    if Reachable(pools, from, to) {
      var w :| Walk(pools, from, to, w);
      var m := ShortestExists(pools, from, to, w);
      var r := ShortestWalkGivesRoute(pools, from, to, m);
      GetRoutesIsExact(pools, from, to, r);
    }
  }
}
