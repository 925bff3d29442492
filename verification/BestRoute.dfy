/** Choosing among the routes found (getBestRouteGivenInput and getBestRouteGivenOutput). */
module BestRoute {
  import opened Numbers
  import opened Pools
  import opened Pricing
  import opened Reachability
  import opened RouteOrder
  import opened RouteSearch
  import opened Sorting
  import Execution

  function PopByReturns(routes: seq<Route>, amount: real): Route {
    if routes == [] then []
    else StableSort(routes, (a: Route, b: Route) => NotAfter(Returned(amount, a), Returned(amount, b)))[|routes| - 1]
  }

  function PopByCosts(routes: seq<Route>, amount: real): Route {
    if routes == [] then []
    else StableSort(routes, (a: Route, b: Route) => NotAfter(Quote(amount, a), Quote(amount, b)))[|routes| - 1]
  }

  function BestGivenInput(pools: seq<Pool>, from: Denom, to: Denom, amount: real): Route {
    PopByReturns(Search(from, to, pools, []), amount)
  }

  function BestGivenOutput(pools: seq<Pool>, from: Denom, to: Denom, amount: real): Route {
    PopByCosts(Search(from, to, pools, []), amount)
  }

  method GetBestRouteGivenInput(router: AMMRouter, tokenIn: Denom, tokenOut: Denom, amountIn: real)
    returns (best: Route)
    ensures best == BestGivenInput(router.pools, tokenIn, tokenOut, amountIn)
  {
    var routeOptions := router.GetRoutes(tokenIn, tokenOut);
    best := PopByReturns(routeOptions, amountIn);
  }

  method GetBestRouteGivenOutput(router: AMMRouter, tokenIn: Denom, tokenOut: Denom, amountOut: real)
    returns (best: Route)
    ensures best == BestGivenOutput(router.pools, tokenIn, tokenOut, amountOut)
  {
    var routeOptions := router.GetRoutes(tokenIn, tokenOut);
    best := PopByCosts(routeOptions, amountOut);
  }

  /** The winner for a given input is the last route, in search order, among those that return most. */
  lemma {:induction false} BestGivenInputIsLastBest(pools: seq<Pool>, from: Denom, to: Denom, amount: real)
    returns (k: int)
    requires amount >= 0.0 && forall p :: p in pools ==> SoundPool(p)
    requires Search(from, to, pools, []) != []
    ensures var routes := Search(from, to, pools, []);
            && 0 <= k < |routes| && BestGivenInput(pools, from, to, amount) == routes[k]
            && (forall i :: 0 <= i < |routes| ==> SoundRoute(routes[i]))
            && (forall i :: 0 <= i < |routes| ==> Output(amount, routes[i]) <= Output(amount, routes[k]))
            && (forall i :: k < i < |routes| ==> Output(amount, routes[i]) < Output(amount, routes[k]))
  {
    hide Search, SoundRoute, SoundPool, Output, Returned;
    var routes := Search(from, to, pools, []);
    forall i | 0 <= i < |routes|
      ensures SoundRoute(routes[i]) && Returned(amount, routes[i]) == Finite(Output(amount, routes[i]))
    {
      assert routes[i] in routes;
      SearchedIsSound(pools, from, to, routes[i]);
      ReturnedIsOutput(amount, routes[i]);
    }
    k := PopIsLastGreatest(routes, (a: Route, b: Route) => NotAfter(Returned(amount, a), Returned(amount, b)));
  }

  /**
   * So the winner is determined by the pools alone: every other route of the declared kind returns less,
   * or as much and parts from the winner through a pool that stands earlier.
   */
  lemma {:induction false} BestGivenInputBreaksTies(pools: seq<Pool>, from: Denom, to: Denom, amount: real, r: Route)
    requires amount >= 0.0 && forall p :: p in pools ==> SoundPool(p)
    requires IsRoute(pools, from, to, r)
    ensures var best := BestGivenInput(pools, from, to, amount);
            && IsRoute(pools, from, to, best) && SoundRoute(r) && SoundRoute(best)
            && (|| r == best || Output(amount, r) < Output(amount, best)
                || (Output(amount, r) == Output(amount, best) && Earlier(pools, r, best)))
  {
    hide Search, Output, IsRoute, Earlier, BestGivenInput;
    var routes := Search(from, to, pools, []);
    GetRoutesIsExact(pools, from, to, r);
    var k := BestGivenInputIsLastBest(pools, from, to, amount);
    GetRoutesIsExact(pools, from, to, routes[k]);
    var i: nat :| i < |routes| && routes[i] == r;
    if i < k {
      GetRoutesInOrder(pools, from, to, i, k);
    }
  }

  lemma {:induction false} SearchedIsSound(pools: seq<Pool>, from: Denom, to: Denom, r: Route)
    requires r in Search(from, to, pools, []) && forall p :: p in pools ==> SoundPool(p)
    ensures SoundRoute(r)
  {
    GetRoutesIsExact(pools, from, to, r);
    Execution.SearchedHopsAreSound(pools, from, to, r);
  }

  /** No route of the declared kind returns more; none is chosen exactly when the target is out of reach. */
  lemma {:induction false} BestGivenInputIsOptimal(pools: seq<Pool>, from: Denom, to: Denom, amount: real)
    requires amount >= 0.0 && UniqueIds(pools) && from != to
    requires forall p :: p in pools ==> SoundPool(p)
    ensures var best := BestGivenInput(pools, from, to, amount);
            && (best == [] <==> !Reachable(pools, from, to))
            && (best != [] ==> IsRoute(pools, from, to, best) && SoundRoute(best))
            && (forall r :: IsRoute(pools, from, to, r)
                  ==> SoundRoute(r) && SoundRoute(best) && Output(amount, r) <= Output(amount, best))
  {
    hide Search, Output, StableSort, Returned, Reachable, SoundRoute, SoundPool, FreshHop, CouldClose;
    var routes := Search(from, to, pools, []);
    RoutesIffReachable(pools, from, to);
    if routes != [] {
      var k := BestGivenInputIsLastBest(pools, from, to, amount);
      GetRoutesIsExact(pools, from, to, routes[k]);
    }
    forall r | IsRoute(pools, from, to, r)
      ensures r in routes
    {
      GetRoutesIsExact(pools, from, to, r);
    }
  }

  /** Every route has a quote that can be compared, infinite or not. */
  ghost predicate Comparable(pools: seq<Pool>, from: Denom, to: Denom, amount: real) {
    forall r :: r in Search(from, to, pools, []) ==> !Quote(amount, r).NotANumber?
  }

  /** Over sound pools that is so exactly when no route empties a pool before its last hop. */
  lemma {:induction false} ComparableIff(pools: seq<Pool>, from: Denom, to: Denom, amount: real)
    requires amount != 0.0 && forall p :: p in pools ==> SoundPool(p)
    ensures Comparable(pools, from, to, amount)
            <==> forall r :: r in Search(from, to, pools, []) ==> EmptiesNone(amount, r)
  {
    hide Quote, EmptiesNone;
    forall r | r in Search(from, to, pools, [])
      ensures !Quote(amount, r).NotANumber? <==> EmptiesNone(amount, r)
    {
      SearchedIsSound(pools, from, to, r);
      QuoteIsNumberIff(amount, r);
    }
  }

  /** The winner for a given output is a route of the search that asks for the largest input. */
  lemma {:induction false} BestGivenOutputIsDearest(pools: seq<Pool>, from: Denom, to: Denom, amount: real)
    requires Comparable(pools, from, to, amount)
    requires Search(from, to, pools, []) != []
    ensures var routes, best := Search(from, to, pools, []), BestGivenOutput(pools, from, to, amount);
            && best in routes
            && forall r :: r in routes ==> AtMost(Quote(amount, r), Quote(amount, best))
  {
    hide Search, Quote;
    var routes := Search(from, to, pools, []);
    forall r, s | r in routes && s in routes
      ensures NotAfter(Quote(amount, r), Quote(amount, s)) <==> AtMost(Quote(amount, r), Quote(amount, s))
    {
      DifferenceOrders(Quote(amount, r), Quote(amount, s));
    }
    var le := (a: Route, b: Route) => NotAfter(Quote(amount, a), Quote(amount, b));
    hide NotAfter;
    var k := PopIsLastGreatest(routes, le);
    assert routes[k] in routes;
    forall r | r in routes
      ensures AtMost(Quote(amount, r), Quote(amount, routes[k]))
    {
      var i :| 0 <= i < |routes| && routes[i] == r;
      assert le(routes[i], routes[k]);
    }
  }

  /** Every other listed route asks for less, or for as much and parts from the winner through an earlier pool. */
  lemma {:induction false} BestGivenOutputBreaksTies(pools: seq<Pool>, from: Denom, to: Denom, amount: real, r: Route)
    requires Comparable(pools, from, to, amount) && IsRoute(pools, from, to, r)
    ensures var best := BestGivenOutput(pools, from, to, amount);
            && IsRoute(pools, from, to, best)
            && (|| r == best || Less(Quote(amount, r), Quote(amount, best))
                || (Quote(amount, r) == Quote(amount, best) && Earlier(pools, r, best)))
  {
    hide Search, Quote, IsRoute, Earlier;
    var routes := Search(from, to, pools, []);
    GetRoutesIsExact(pools, from, to, r);
    ComparableOrders(pools, from, to, amount);
    hide NotAfter, AtMost;
    var k := PopIsLastGreatest(routes, (a: Route, b: Route) => NotAfter(Quote(amount, a), Quote(amount, b)));
    var i: nat :| i < |routes| && routes[i] == r;
    assert routes[i] in routes && routes[k] in routes;
    GetRoutesIsExact(pools, from, to, routes[k]);
    AtMostCases(Quote(amount, r), Quote(amount, routes[k]));
    if i < k {
      GetRoutesInOrder(pools, from, to, i, k);
    }
  }

  lemma {:induction false} ComparableOrders(pools: seq<Pool>, from: Denom, to: Denom, amount: real)
    requires Comparable(pools, from, to, amount)
    ensures Preorders((a: Route, b: Route) => NotAfter(Quote(amount, a), Quote(amount, b)), Search(from, to, pools, []))
    ensures forall r, s :: r in Search(from, to, pools, []) && s in Search(from, to, pools, [])
              ==> (NotAfter(Quote(amount, r), Quote(amount, s)) <==> AtMost(Quote(amount, r), Quote(amount, s)))
  {
    hide Search, Quote, NotAfter;
    forall r, s | r in Search(from, to, pools, []) && s in Search(from, to, pools, [])
      ensures NotAfter(Quote(amount, r), Quote(amount, s)) <==> AtMost(Quote(amount, r), Quote(amount, s))
      ensures !Quote(amount, r).NotANumber?
    {
      DifferenceOrders(Quote(amount, r), Quote(amount, s));
    }
  }

  lemma {:induction false} AtMostCases(a: Num, b: Num)
    ensures AtMost(a, b) <==> a == b || Less(a, b)
  {
  }

  /** It is a cheapest route exactly when every route costs the same. */
  lemma {:induction false} BestGivenOutputIsCheapestIff(pools: seq<Pool>, from: Denom, to: Denom, amount: real)
    requires Comparable(pools, from, to, amount)
    requires Search(from, to, pools, []) != []
    ensures var routes, best := Search(from, to, pools, []), BestGivenOutput(pools, from, to, amount);
            && best in routes
            && ((forall r :: r in routes ==> AtMost(Quote(amount, best), Quote(amount, r)))
                <==> (forall r, s :: r in routes && s in routes ==> Quote(amount, r) == Quote(amount, s)))
  {
    hide Search, Quote, BestGivenOutput;
    BestGivenOutputIsDearest(pools, from, to, amount);
  }

  /** Two direct pools, one twice as deep: the route chosen for an output of 1 costs more than it need. */
  lemma {:induction false} BestGivenOutputCanBeDear()
    ensures var deep := Pool(1, 0.0, [PoolAsset("a", 100.0), PoolAsset("b", 101.0)]);
            var dear := Pool(2, 0.0, [PoolAsset("a", 200.0), PoolAsset("b", 101.0)]);
            var cheap := [HopThrough(deep, "a")];
            && IsRoute([deep, dear], "a", "b", cheap)
            && BestGivenOutput([deep, dear], "a", "b", 1.0) == [HopThrough(dear, "a")]
            && Quote(1.0, cheap) == Finite(1.0)
            && Quote(1.0, [HopThrough(dear, "a")]) == Finite(2.0)
  {
    hide Search, Quote, BestGivenOutput, IsRoute;
    var deep := Pool(1, 0.0, [PoolAsset("a", 100.0), PoolAsset("b", 101.0)]);
    var dear := Pool(2, 0.0, [PoolAsset("a", 200.0), PoolAsset("b", 101.0)]);
    var pools, cheap, costly := [deep, dear], [HopThrough(deep, "a")], [HopThrough(dear, "a")];
    DirectIsRoute(pools, deep);
    DirectIsRoute(pools, dear);
    DirectPrice(HopThrough(deep, "a"));
    DirectPrice(HopThrough(dear, "a"));
    forall r | r in Search("a", "b", pools, [])
      ensures r == cheap || r == costly
    {
      OnlyDirectRoutes(pools, r);
    }
    GetRoutesIsExact(pools, "a", "b", cheap);
    GetRoutesIsExact(pools, "a", "b", costly);
    DearerOfTwo(pools, cheap, costly, 1.0);
  }

  lemma {:induction false} DearerOfTwo(pools: seq<Pool>, cheap: Route, dear: Route, amount: real)
    requires cheap in Search("a", "b", pools, []) && dear in Search("a", "b", pools, [])
    requires forall r :: r in Search("a", "b", pools, []) ==> r == cheap || r == dear
    requires Quote(amount, cheap).Finite? && Quote(amount, dear).Finite?
    requires Less(Quote(amount, cheap), Quote(amount, dear))
    ensures BestGivenOutput(pools, "a", "b", amount) == dear
  {
    hide Search, Quote, BestGivenOutput;
    BestGivenOutputIsDearest(pools, "a", "b", amount);
  }

  predicate Direct(p: Pool) {
    |p.assets| == 2 && p.assets[0].denom == "a" && p.assets[1].denom == "b"
  }

  lemma {:induction false} DirectIsRoute(pools: seq<Pool>, p: Pool)
    requires p in pools && Direct(p)
    ensures IsRoute(pools, "a", "b", [HopThrough(p, "a")])
  {
    assert FreshHop(pools, "a", [HopThrough(p, "a")], 0);
  }

  lemma {:induction false} OnlyDirectRoutes(pools: seq<Pool>, r: Route)
    requires |pools| == 2 && Direct(pools[0]) && Direct(pools[1])
    requires r in Search("a", "b", pools, [])
    ensures exists p :: p in pools && r == [HopThrough(p, "a")]
  {
    GetRoutesIsExact(pools, "a", "b", r);
    assert FreshHop(pools, "a", r, 0);
    assert r[..0] == [] && CouldClose(pools, "a", "b", r, 0);
    var p :| p in pools && p.Holds("a") && r[0] == HopThrough(p, "a");
    assert r == [r[0]];
  }

  lemma {:induction false} DirectPrice(h: RouteHop)
    requires h.y1 == 101.0 && h.swapFee == 0.0
    ensures Quote(1.0, [h]) == Finite(h.x1 / 100.0)
  {
    OneHopCosts(h, 1.0);
  }

  lemma {:induction false} OneHopCosts(h: RouteHop, amount: real)
    requires amount != 0.0
    ensures Quote(amount, [h]) == HopCosts(h, Finite(amount))
  {
    assert [h][..0] == [];
    assert QuoteFold(amount, []) == Finite(amount);
  }
}
