/** The recursive search for swap routes (amm_router.ts). */
module RouteSearch {
  import opened Prelude
  import opened Pools

  function FreePools(pools: seq<Pool>, route: Route): seq<Pool> {
    Filter(pools, (p: Pool) => p.id !in UsedPools(route))
  }

  /** Pools that hold `d` among their leading assets and are not in the route yet. */
  function Starts(pools: seq<Pool>, d: Denom, route: Route): (starts: seq<Pool>)
    ensures forall i :: 0 <= i < |starts| ==> starts[i] in pools && starts[i].Holds(d)
    ensures forall i :: 0 <= i < |starts| ==> starts[i].id !in UsedPools(route)
  {
    var starts := Filter(pools, (p: Pool) => p.Holds(d) && p.id !in UsedPools(route));
    assert forall i :: 0 <= i < |starts| ==> starts[i] in starts;
    starts
  }

  function Ends(starts: seq<Pool>, target: Denom): (ends: seq<Pool>)
    ensures |ends| <= |starts|
    ensures forall i :: 0 <= i < |ends| ==> ends[i] in starts && ends[i].Holds(target)
  {
    var ends := Filter(starts, (p: Pool) => p.Holds(target));
    assert forall i :: 0 <= i < |ends| ==> ends[i] in ends;
    ends
  }

  /** Amount of the first asset in `denom`, as Array.find picks it. */
  function FindAmount(assets: seq<PoolAsset>, denom: Denom): Option<real> {
    if assets == [] then None
    else if assets[0].denom == denom then Some(assets[0].amount)
    else FindAmount(assets[1..], denom)
  }

  /** The closing hop as the source builds it, from two look-ups by denom. */
  function ClosingHop(p: Pool, d: Denom, target: Denom): RouteHop
    requires FindAmount(p.assets, d).Some? && FindAmount(p.assets, target).Some?
  {
    RouteHop(p.id, d, target, p.swapFee, FindAmount(p.assets, d).value, FindAmount(p.assets, target).value)
  }

  /** The look-ups find the two leading assets, so a closing hop is oriented like any other. */
  lemma {:induction false} ClosingHopIsOriented(p: Pool, d: Denom, target: Denom)
    requires p.Holds(d) && p.Holds(target) && d != target
    ensures FindAmount(p.assets, d).Some? && FindAmount(p.assets, target).Some?
    ensures ClosingHop(p, d, target) == HopThrough(p, d)
    ensures OutDenom(p, d) == target
  {
    assert p.assets[1..][0] == p.assets[1];
  }

  lemma {:induction false} ExtendingUsesAPool(pools: seq<Pool>, route: Route, p: Pool, d: Denom)
    requires p in pools && p.Tradable() && p.id !in UsedPools(route)
    ensures |FreePools(pools, route + [HopThrough(p, d)])| < |FreePools(pools, route)|
  {
    var hop := HopThrough(p, d);
    assert UsedPools(route + [hop]) == UsedPools(route) + {hop.poolId};
    FilterShrinks(pools, (p: Pool) => p.id !in UsedPools(route + [hop]), (p: Pool) => p.id !in UsedPools(route));
  }

  /** `route` closed through each of `ends` in turn. */
  function Closing(ends: seq<Pool>, d: Denom, route: Route): (found: seq<Route>)
    requires forall i :: 0 <= i < |ends| ==> ends[i].Tradable()
    ensures |found| == |ends|
    ensures forall i :: 0 <= i < |ends| ==> found[i] == route + [HopThrough(ends[i], d)]
  {
    seq(|ends|, i requires 0 <= i < |ends| => route + [HopThrough(ends[i], d)])
  }

  /** The routes that the search adds when it stands at `d` with `route` behind it. */
  function Search(d: Denom, target: Denom, pools: seq<Pool>, route: Route): seq<Route>
    decreases |FreePools(pools, route)|, 1, 0
  {
    var starts := Starts(pools, d, route);
    var ends := Ends(starts, target);
    if ends != [] && d != target then Closing(ends, d, route)
    else
      SearchThrough(|starts|, d, target, pools, route)
  }

  /** The part of the search that goes through the first `n` starting pools. */
  function SearchThrough(n: nat, d: Denom, target: Denom, pools: seq<Pool>, route: Route): seq<Route>
    requires n <= |Starts(pools, d, route)|
    decreases |FreePools(pools, route)|, 0, n
  {
    if n == 0 then []
    else
      var p := Starts(pools, d, route)[n - 1];
      ExtendingUsesAPool(pools, route, p, d);
      SearchThrough(n - 1, d, target, pools, route)
      + Search(OutDenom(p, d), target, pools, route + [HopThrough(p, d)])
  }

  /** The JavaScript array that all calls of one search push to. */
  class RouteList {
    var items: seq<Route>

    constructor ()
      ensures items == []
    {
      items := [];
    }

    method Push(route: Route)
      modifies this
      ensures items == old(items) + [route]
    {
      items := items + [route];
    }
  }

  class AMMRouter {
    var pools: seq<Pool>

    constructor ()
      ensures pools == []
    {
      pools := [];
    }

    method SetPools(pools: seq<Pool>)
      modifies this
      ensures this.pools == pools
    {
      this.pools := pools;
    }

    method GetRoutes(tokenIn: Denom, tokenOut: Denom) returns (routes: seq<Route>)
      ensures routes == Search(tokenIn, tokenOut, pools, [])
    {
      var list := new RouteList();
      BuildRoutesForTrade(tokenIn, tokenOut, pools, [], list);
      routes := list.items;
    }

    static method BuildRoutesForTrade(
        tokenIn: Denom, target: Denom, pools: seq<Pool>, route: Route, routes: RouteList)
      modifies routes
      ensures routes.items == old(routes.items) + Search(tokenIn, target, pools, route)
      decreases |FreePools(pools, route)|
    {
      hide Starts, Ends, FreePools, Filter, HopThrough, ClosingHop, UsedPools;
      var starts := Starts(pools, tokenIn, route);
      if |starts| == 0 {
        return;
      }
      var ends := Ends(starts, target);
      if |ends| > 0 && tokenIn != target {
        PushClosings(ends, tokenIn, target, route, routes);
      } else {
        for i := 0 to |starts|
          invariant routes.items == old(routes.items) + SearchThrough(i, tokenIn, target, pools, route)
        {
          var p := starts[i];
          ExtendingUsesAPool(pools, route, p, tokenIn);
          BuildRoutesForTrade(OutDenom(p, tokenIn), target, pools, route + [HopThrough(p, tokenIn)], routes);
        }
      }
    }
  }

  /** One finished route for every pool that reaches the target from here. */
  method PushClosings(ends: seq<Pool>, tokenIn: Denom, target: Denom, route: Route, routes: RouteList)
    requires tokenIn != target
    requires forall i :: 0 <= i < |ends| ==> ends[i].Tradable() && ends[i].Holds(tokenIn) && ends[i].Holds(target)
    modifies routes
    ensures routes.items == old(routes.items) + Closing(ends, tokenIn, route)
  {
    for i := 0 to |ends|
      invariant routes.items == old(routes.items) + Closing(ends, tokenIn, route)[..i]
    {
      ClosingHopIsOriented(ends[i], tokenIn, target);
      routes.Push(route + [ClosingHop(ends[i], tokenIn, target)]);
    }
  }

  // ----- What the search finds ------------------------------------------------------------------

  /** Hop `i` sells the denom held there into a pool that no earlier hop used. */
  ghost predicate FreshHop(pools: seq<Pool>, from: Denom, r: Route, i: nat)
    requires i < |r|
  {
    exists p :: p in pools && p.Holds(DenomAt(from, r, i)) && p.id !in UsedPools(r[..i])
                && r[i] == HopThrough(p, DenomAt(from, r, i))
  }

  /** Before hop `i` the trade could still go straight to `to` through an unused pool. */
  ghost predicate CouldClose(pools: seq<Pool>, from: Denom, to: Denom, r: Route, i: nat)
    requires i <= |r|
  {
    DenomAt(from, r, i) != to
    && exists p :: p in pools && p.Holds(DenomAt(from, r, i)) && p.Holds(to) && p.id !in UsedPools(r[..i])
  }

  /** From hop `k` on, `r` is a pool-distinct chain to `to` that closes as soon as it can. */
  ghost predicate IsRouteFrom(pools: seq<Pool>, from: Denom, to: Denom, r: Route, k: nat) {
    && k < |r|
    && (forall i :: k <= i < |r| ==> FreshHop(pools, from, r, i))
    && (forall i :: k <= i < |r| - 1 ==> !CouldClose(pools, from, to, r, i))
    && DenomAt(from, r, |r| - 1) != to
    && r[|r| - 1].tokenOut == to
  }

  ghost predicate IsRoute(pools: seq<Pool>, from: Denom, to: Denom, r: Route) {
    IsRouteFrom(pools, from, to, r, 0)
  }

  lemma {:induction false} EndsIffCouldClose(pools: seq<Pool>, from: Denom, to: Denom, r: Route, k: nat)
    requires k <= |r|
    ensures var d := DenomAt(from, r, k);
            (Ends(Starts(pools, d, r[..k]), to) != [] && d != to) <==> CouldClose(pools, from, to, r, k)
  {
    var d := DenomAt(from, r, k);
    var ends := Ends(Starts(pools, d, r[..k]), to);
    if ends != [] {
      assert ends[0] in ends;
    }
    if CouldClose(pools, from, to, r, k) {
      var p :| p in pools && p.Holds(d) && p.Holds(to) && p.id !in UsedPools(r[..k]);
      assert p in ends;
    }
  }

  /** Soundness and completeness of the search from any partial route. */
  lemma {:induction false} SearchIsExact(from: Denom, to: Denom, pools: seq<Pool>, route: Route, r: Route)
    ensures r in Search(DenomAt(from, route, |route|), to, pools, route)
            <==> route <= r && IsRouteFrom(pools, from, to, r, |route|)
    decreases |FreePools(pools, route)|, 1, 0
  {
    var d := DenomAt(from, route, |route|);
    var starts := Starts(pools, d, route);
    var ends := Ends(starts, to);
    var k := |route|;
    assert route[..k] == route;
    EndsIffCouldClose(pools, from, to, route, k);
    hide Starts, Ends, FreePools, CouldClose, FreshHop, LeavesThrough;
    if ends != [] && d != to {
      ClosingIsExact(from, to, pools, route, r);
    } else {
      SearchThroughIsExact(|starts|, from, to, pools, route, r);
      assert starts[..|starts|] == starts;
      if route <= r && IsRouteFrom(pools, from, to, r, k) {
        assert r[..k] == route && DenomAt(from, r, k) == d;
        FreshHopLeavesThroughAStart(from, pools, r, k);
      }
    }
  }

  /** Closing through a fitting pool completes a route, and nothing else does where closing is possible. */
  lemma {:induction false} OneClosing(from: Denom, to: Denom, pools: seq<Pool>, route: Route, p: Pool)
    requires var d := DenomAt(from, route, |route|);
             d != to && p in pools && p.Holds(d) && p.Holds(to) && p.id !in UsedPools(route)
    ensures IsRouteFrom(pools, from, to, route + [HopThrough(p, DenomAt(from, route, |route|))], |route|)
  {
    var r := route + [HopThrough(p, DenomAt(from, route, |route|))];
    assert r[..|route|] == route;
    assert FreshHop(pools, from, r, |route|);
  }

  lemma {:induction false} OnlyClosings(from: Denom, to: Denom, pools: seq<Pool>, route: Route, r: Route)
    returns (p: Pool)
    requires CouldClose(pools, from, to, route, |route|)
    requires route <= r && IsRouteFrom(pools, from, to, r, |route|)
    ensures p in Ends(Starts(pools, DenomAt(from, route, |route|), route), to)
    ensures r == route + [HopThrough(p, DenomAt(from, route, |route|))]
  {
    hide FreshHop, CouldClose, Starts, Ends;
    SamePrefix(from, to, pools, route, r);
    p := FittingPool(from, to, pools, r, |route|);
    assert r == route + [r[|route|]];
  }

  /** What holds after `route` does not depend on how it goes on. */
  lemma {:induction false} SamePrefix(from: Denom, to: Denom, pools: seq<Pool>, route: Route, r: Route)
    requires route <= r
    ensures r[..|route|] == route && DenomAt(from, r, |route|) == DenomAt(from, route, |route|)
    ensures CouldClose(pools, from, to, r, |route|) <==> CouldClose(pools, from, to, route, |route|)
  {
    assert route[..|route|] == route == r[..|route|];
  }

  lemma {:induction false} FittingPool(from: Denom, to: Denom, pools: seq<Pool>, r: Route, k: nat) returns (p: Pool)
    requires k == |r| - 1 && FreshHop(pools, from, r, k) && r[k].tokenOut == to
    ensures p in Ends(Starts(pools, DenomAt(from, r, k), r[..k]), to)
    ensures r[k] == HopThrough(p, DenomAt(from, r, k))
  {
    var d := DenomAt(from, r, k);
    p :| p in pools && p.Holds(d) && p.id !in UsedPools(r[..k]) && r[k] == HopThrough(p, d);
  }

  lemma {:induction false} ClosingIsExact(from: Denom, to: Denom, pools: seq<Pool>, route: Route, r: Route)
    requires CouldClose(pools, from, to, route, |route|)
    ensures var d := DenomAt(from, route, |route|);
            r in Closing(Ends(Starts(pools, d, route), to), d, route)
            <==> route <= r && IsRouteFrom(pools, from, to, r, |route|)
  {
    hide Starts, Ends, IsRouteFrom;
    var d := DenomAt(from, route, |route|);
    var ends := Ends(Starts(pools, d, route), to);
    if r in Closing(ends, d, route) {
      var i :| 0 <= i < |ends| && r == route + [HopThrough(ends[i], d)];
      OneClosing(from, to, pools, route, ends[i]);
    }
    if route <= r && IsRouteFrom(pools, from, to, r, |route|) {
      var p := OnlyClosings(from, to, pools, route, r);
      var i :| 0 <= i < |ends| && ends[i] == p;
      assert Closing(ends, d, route)[i] == r;
    }
  }

  ghost predicate LeavesThrough(starts: seq<Pool>, d: Denom, hop: RouteHop)
    requires forall i :: 0 <= i < |starts| ==> starts[i].Tradable()
  {
    exists i :: 0 <= i < |starts| && hop == HopThrough(starts[i], d)
  }

  lemma {:induction false} FreshHopLeavesThroughAStart(from: Denom, pools: seq<Pool>, r: Route, k: nat)
    requires k < |r| && FreshHop(pools, from, r, k)
    ensures LeavesThrough(Starts(pools, DenomAt(from, r, k), r[..k]), DenomAt(from, r, k), r[k])
  {
    var d := DenomAt(from, r, k);
    var starts := Starts(pools, d, r[..k]);
    var p :| p in pools && p.Holds(d) && p.id !in UsedPools(r[..k]) && r[k] == HopThrough(p, d);
    var i :| 0 <= i < |starts| && starts[i] == p;
  }

  lemma {:induction false} LeavesThroughSnoc(starts: seq<Pool>, d: Denom, hop: RouteHop, n: nat)
    requires 0 < n <= |starts| && forall i :: 0 <= i < |starts| ==> starts[i].Tradable()
    ensures LeavesThrough(starts[..n], d, hop)
            <==> LeavesThrough(starts[..n - 1], d, hop) || hop == HopThrough(starts[n - 1], d)
  {
    if hop == HopThrough(starts[n - 1], d) {
      assert starts[..n][n - 1] == starts[n - 1];
    }
    if LeavesThrough(starts[..n - 1], d, hop) {
      var i :| 0 <= i < n - 1 && hop == HopThrough(starts[..n - 1][i], d);
      assert starts[..n][i] == starts[i];
    }
  }

  lemma {:induction false} SearchThroughIsExact(
      n: nat, from: Denom, to: Denom, pools: seq<Pool>, route: Route, r: Route)
    requires n <= |Starts(pools, DenomAt(from, route, |route|), route)|
    requires !CouldClose(pools, from, to, route, |route|)
    ensures var d := DenomAt(from, route, |route|);
            r in SearchThrough(n, d, to, pools, route)
            <==> route <= r && IsRouteFrom(pools, from, to, r, |route|)
                 && LeavesThrough(Starts(pools, d, route)[..n], d, r[|route|])
    decreases |FreePools(pools, route)|, 0, n
  {
    hide Starts, FreePools, Filter, CouldClose, FreshHop;
    var d := DenomAt(from, route, |route|);
    var k := |route|;
    var starts := Starts(pools, d, route);
    if n > 0 {
      var p := starts[n - 1];
      var longer := route + [HopThrough(p, d)];
      ExtendingUsesAPool(pools, route, p, d);
      SearchThroughIsExact(n - 1, from, to, pools, route, r);
      SearchIsExact(from, to, pools, longer, r);
      OneHopFurther(from, to, pools, route, r, p);
      if |r| > k {
        LeavesThroughSnoc(starts, d, r[k], n);
      }
      calc {
        r in SearchThrough(n, d, to, pools, route);
        r in SearchThrough(n - 1, d, to, pools, route) || r in Search(OutDenom(p, d), to, pools, longer);
      }
    }
  }

  lemma {:induction false} LastHopCouldClose(from: Denom, to: Denom, pools: seq<Pool>, r: Route)
    requires r != [] && IsRouteFrom(pools, from, to, r, |r| - 1)
    ensures CouldClose(pools, from, to, r, |r| - 1)
  {
    assert FreshHop(pools, from, r, |r| - 1);
  }

  /** Where the route cannot close yet, being a route from here is one fresh hop and a route from there. */
  lemma {:induction false} OneHopFurther(from: Denom, to: Denom, pools: seq<Pool>, route: Route, r: Route, p: Pool)
    requires !CouldClose(pools, from, to, route, |route|)
    requires p in Starts(pools, DenomAt(from, route, |route|), route)
    ensures var d := DenomAt(from, route, |route|);
            var longer := route + [HopThrough(p, d)];
            longer <= r && IsRouteFrom(pools, from, to, r, |longer|)
            <==> route <= r && IsRouteFrom(pools, from, to, r, |route|) && r[|route|] == HopThrough(p, d)
  {
    hide FreshHop, CouldClose, Starts;
    var longer := route + [HopThrough(p, DenomAt(from, route, |route|))];
    if route <= r {
      SamePrefix(from, to, pools, route, r);
      if longer <= r {
        assert r[|route|] == longer[|route|];
        StartIsFresh(pools, from, r, |route|, p);
      }
      if IsRouteFrom(pools, from, to, r, |route|) {
        LastHopCouldClose(from, to, pools, r);
        assert r[|route|] == longer[|route|] ==> longer <= r;
      }
    }
  }

  lemma {:induction false} StartIsFresh(pools: seq<Pool>, from: Denom, r: Route, k: nat, p: Pool)
    requires k < |r| && p in Starts(pools, DenomAt(from, r, k), r[..k])
    requires r[k] == HopThrough(p, DenomAt(from, r, k))
    ensures FreshHop(pools, from, r, k)
  {
  }

  /** getRoutes returns exactly the pool-distinct chains that close as soon as they can. */
  lemma {:induction false} GetRoutesIsExact(pools: seq<Pool>, from: Denom, to: Denom, r: Route)
    ensures r in Search(from, to, pools, []) <==> IsRoute(pools, from, to, r)
  {
    SearchIsExact(from, to, pools, [], r);
  }

  // ----- No route is listed twice ---------------------------------------------------------------

  lemma {:induction false} UniquePoolsStayUnique(pools: seq<Pool>, keep: Pool -> bool)
    requires UniqueIds(pools)
    ensures UniqueIds(Filter(pools, keep))
  {
    if pools != [] {
      var front := pools[..|pools| - 1];
      UniquePoolsStayUnique(front, keep);
      assert forall p :: p in Filter(front, keep) ==> p.id != pools[|pools| - 1].id;
    }
  }

  lemma {:induction false} SearchHasNoDuplicates(from: Denom, to: Denom, pools: seq<Pool>, route: Route)
    requires UniqueIds(pools)
    ensures NoDuplicates(Search(DenomAt(from, route, |route|), to, pools, route))
    decreases |FreePools(pools, route)|, 1, 0
  {
    hide IsRouteFrom, CouldClose;
    var d := DenomAt(from, route, |route|);
    var starts := Starts(pools, d, route);
    UniquePoolsStayUnique(pools, (p: Pool) => p.Holds(d) && p.id !in UsedPools(route));
    UniquePoolsStayUnique(starts, (p: Pool) => p.Holds(to));
    var ends := Ends(starts, to);
    if ends != [] && d != to {
      var found := Closing(ends, d, route);
      forall i, j | 0 <= i < j < |found|
        ensures found[i] != found[j]
      {
        var hopI: RouteHop, hopJ: RouteHop := found[i][|route|], found[j][|route|];
        assert hopI.poolId == ends[i].id && hopJ.poolId == ends[j].id;
      }
    } else {
      EndsIffCouldClose(pools, from, to, route, |route|);
      assert route[..|route|] == route;
      SearchThroughHasNoDuplicates(|starts|, from, to, pools, route);
    }
  }

  lemma {:induction false} PoolsLeadToDifferentRoutes(
      n: nat, from: Denom, to: Denom, pools: seq<Pool>, route: Route, r: Route)
    requires UniqueIds(Starts(pools, DenomAt(from, route, |route|), route))
    requires 0 < n <= |Starts(pools, DenomAt(from, route, |route|), route)|
    requires !CouldClose(pools, from, to, route, |route|)
    requires r in SearchThrough(n - 1, DenomAt(from, route, |route|), to, pools, route)
    ensures var d := DenomAt(from, route, |route|);
            var p := Starts(pools, d, route)[n - 1];
            r !in Search(OutDenom(p, d), to, pools, route + [HopThrough(p, d)])
  {
    hide CouldClose, Starts, FreePools, Search, SearchThrough;
    var d := DenomAt(from, route, |route|);
    var starts := Starts(pools, d, route);
    var longer := route + [HopThrough(starts[n - 1], d)];
    SearchThroughIsExact(n - 1, from, to, pools, route, r);
    SearchIsExact(from, to, pools, longer, r);
    var i :| 0 <= i < n - 1 && r[|route|] == HopThrough(starts[..n - 1][i], d);
    assert starts[i].id != starts[n - 1].id;
    if longer <= r {
      assert r[|route|] == longer[|route|];
    }
  }

  lemma {:induction false} SearchThroughHasNoDuplicates(
      n: nat, from: Denom, to: Denom, pools: seq<Pool>, route: Route)
    requires UniqueIds(pools) && UniqueIds(Starts(pools, DenomAt(from, route, |route|), route))
    requires n <= |Starts(pools, DenomAt(from, route, |route|), route)|
    requires !CouldClose(pools, from, to, route, |route|)
    ensures NoDuplicates(SearchThrough(n, DenomAt(from, route, |route|), to, pools, route))
    decreases |FreePools(pools, route)|, 0, n
  {
    hide CouldClose, Starts, FreePools, UniqueIds, IsRouteFrom;
    var d := DenomAt(from, route, |route|);
    var starts := Starts(pools, d, route);
    if n > 0 {
      var p := starts[n - 1];
      var longer := route + [HopThrough(p, d)];
      ExtendingUsesAPool(pools, route, p, d);
      SearchThroughHasNoDuplicates(n - 1, from, to, pools, route);
      SearchHasNoDuplicates(from, to, pools, longer);
      var before := SearchThrough(n - 1, d, to, pools, route);
      var after := Search(OutDenom(p, d), to, pools, longer);
      forall r | r in before
        ensures r !in after
      {
        PoolsLeadToDifferentRoutes(n, from, to, pools, route, r);
      }
      DisjointAppend(before, after);
    }
  }

  /** With unique pool ids, getRoutes lists no route twice. */
  lemma {:induction false} GetRoutesHasNoDuplicates(pools: seq<Pool>, from: Denom, to: Denom)
    requires UniqueIds(pools)
    ensures NoDuplicates(Search(from, to, pools, []))
  {
    SearchHasNoDuplicates(from, to, pools, []);
  }
}
