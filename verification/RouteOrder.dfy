/** The order in which the search lists routes: that of the pools at the first hop where two of them part. */
module RouteOrder {
  import opened Prelude
  import opened Pools
  import opened RouteSearch

  /** A pool with id `a` stands before one with id `b`. */
  ghost predicate Precedes(pools: seq<Pool>, a: nat, b: nat) {
    exists x, y :: 0 <= x < y < |pools| && pools[x].id == a && pools[y].id == b
  }

  /** The routes agree on `k` hops and then part, `r` through a pool that stands earlier. */
  ghost predicate PartsEarlier(pools: seq<Pool>, r: Route, s: Route, k: nat) {
    k < |r| && k < |s| && r[..k] == s[..k] && Precedes(pools, r[k].poolId, s[k].poolId)
  }

  ghost predicate Earlier(pools: seq<Pool>, r: Route, s: Route) {
    exists k: nat :: PartsEarlier(pools, r, s, k)
  }

  ghost predicate InOrder(pools: seq<Pool>, routes: seq<Route>) {
    forall i, j :: 0 <= i < j < |routes| ==> Earlier(pools, routes[i], routes[j])
  }

  /** All routes go on from `route`. */
  ghost predicate GoOn(route: Route, routes: seq<Route>) {
    forall i :: 0 <= i < |routes| ==> |route| < |routes[i]| && routes[i][..|route|] == route
  }

  /** With unique ids only one of two pools stands before the other, so the order decides between two routes. */
  lemma {:induction false} EarlierOneWay(pools: seq<Pool>, r: Route, s: Route)
    requires UniqueIds(pools) && Earlier(pools, r, s)
    ensures !Earlier(pools, s, r) && r != s
  {
    var k: nat :| PartsEarlier(pools, r, s, k);
    PrecedesOneWay(pools, r[k].poolId, s[k].poolId);
    hide Precedes, UniqueIds;
    forall m: nat
      ensures !PartsEarlier(pools, s, r, m)
    {
      PrefixAgrees(r, s, m, k);
      PrefixAgrees(r, s, k, m);
      if m < |r| {
        NotBeforeItself(pools, r[m].poolId);
      }
    }
  }

  lemma {:induction false} PrefixAgrees(r: Route, s: Route, m: nat, k: nat)
    ensures m < k <= |r| && k <= |s| && r[..k] == s[..k] ==> r[m] == s[m]
  {
    if m < k <= |r| && k <= |s| && r[..k] == s[..k] {
      assert r[..k][m] == s[..k][m];
    }
  }

  lemma {:induction false} PrecedesOneWay(pools: seq<Pool>, a: nat, b: nat)
    requires UniqueIds(pools) && Precedes(pools, a, b)
    ensures !Precedes(pools, b, a) && a != b
  {
  }

  lemma {:induction false} NotBeforeItself(pools: seq<Pool>, a: nat)
    requires UniqueIds(pools)
    ensures !Precedes(pools, a, a)
  {
  }

  lemma {:induction false} StartsInOrder(pools: seq<Pool>, d: Denom, route: Route, i: nat, j: nat)
    requires i < j < |Starts(pools, d, route)|
    ensures Precedes(pools, Starts(pools, d, route)[i].id, Starts(pools, d, route)[j].id)
  {
    var x, y := FilterKeepsOrder(pools, (p: Pool) => p.Holds(d) && p.id !in UsedPools(route), i, j);
    assert pools[x].id == Starts(pools, d, route)[i].id;
  }

  lemma {:induction false} EndsInOrder(pools: seq<Pool>, d: Denom, route: Route, to: Denom, i: nat, j: nat)
    requires i < j < |Ends(Starts(pools, d, route), to)|
    ensures var ends := Ends(Starts(pools, d, route), to); Precedes(pools, ends[i].id, ends[j].id)
  {
    var x, y := FilterKeepsOrder(Starts(pools, d, route), (p: Pool) => p.Holds(to), i, j);
    StartsInOrder(pools, d, route, x, y);
  }

  lemma {:induction false} AppendInOrder(pools: seq<Pool>, a: seq<Route>, b: seq<Route>)
    requires InOrder(pools, a) && InOrder(pools, b)
    requires forall i, j :: 0 <= i < |a| && 0 <= j < |b| ==> Earlier(pools, a[i], b[j])
    ensures InOrder(pools, a + b)
  {
    hide Earlier;
  }

  lemma {:induction false} ClosingInOrder(pools: seq<Pool>, d: Denom, to: Denom, route: Route)
    ensures var found := Closing(Ends(Starts(pools, d, route), to), d, route);
            GoOn(route, found) && InOrder(pools, found)
  {
    hide Starts, Ends, Precedes;
    var ends := Ends(Starts(pools, d, route), to);
    var found := Closing(ends, d, route);
    forall i, j | 0 <= i < j < |found|
      ensures Earlier(pools, found[i], found[j])
    {
      EndsInOrder(pools, d, route, to, i, j);
      assert found[i][|route|].poolId == ends[i].id && found[j][|route|].poolId == ends[j].id;
      assert PartsEarlier(pools, found[i], found[j], |route|);
    }
  }

  ghost predicate LeavesBy(starts: seq<Pool>, n: nat, id: nat)
    requires n <= |starts|
  {
    exists x :: 0 <= x < n && starts[x].id == id
  }

  /** Each of the routes leaves `route` through one of the first `n` starting pools. */
  ghost predicate LeaveThrough(starts: seq<Pool>, n: nat, route: Route, routes: seq<Route>)
    requires n <= |starts| && GoOn(route, routes)
  {
    forall i :: 0 <= i < |routes| ==> LeavesBy(starts, n, routes[i][|route|].poolId)
  }

  lemma {:induction false} SearchInOrder(d: Denom, to: Denom, pools: seq<Pool>, route: Route)
    ensures var found := Search(d, to, pools, route); GoOn(route, found) && InOrder(pools, found)
    decreases |FreePools(pools, route)|, 1, 0
  {
    hide GoOn, InOrder, LeaveThrough, Starts, Ends, Closing, SearchThrough, FreePools;
    ClosingInOrder(pools, d, to, route);
    SearchThroughInOrder(|Starts(pools, d, route)|, d, to, pools, route);
  }

  lemma {:induction false} SearchThroughNone(d: Denom, to: Denom, pools: seq<Pool>, route: Route)
    ensures var found := SearchThrough(0, d, to, pools, route);
            GoOn(route, found) && InOrder(pools, found) && LeaveThrough(Starts(pools, d, route), 0, route, found)
  {
  }

  lemma {:induction false} SearchThroughSnoc(n: nat, d: Denom, to: Denom, pools: seq<Pool>, route: Route)
    requires 0 < n <= |Starts(pools, d, route)|
    ensures var p := Starts(pools, d, route)[n - 1];
            && |FreePools(pools, route + [HopThrough(p, d)])| < |FreePools(pools, route)|
            && SearchThrough(n, d, to, pools, route)
               == SearchThrough(n - 1, d, to, pools, route)
                  + Search(OutDenom(p, d), to, pools, route + [HopThrough(p, d)])
  {
    hide Starts, Search;
    ExtendingUsesAPool(pools, route, Starts(pools, d, route)[n - 1], d);
  }

  lemma {:induction false} SearchThroughInOrder(n: nat, d: Denom, to: Denom, pools: seq<Pool>, route: Route)
    requires n <= |Starts(pools, d, route)|
    ensures var found := SearchThrough(n, d, to, pools, route);
            && GoOn(route, found) && InOrder(pools, found)
            && LeaveThrough(Starts(pools, d, route), n, route, found)
    decreases |FreePools(pools, route)|, 0, n
  {
    hide Starts, FreePools, Search, SearchThrough, InOrder, GoOn, LeaveThrough;
    if n == 0 {
      SearchThroughNone(d, to, pools, route);
    } else {
      var p := Starts(pools, d, route)[n - 1];
      SearchThroughSnoc(n, d, to, pools, route);
      SearchThroughInOrder(n - 1, d, to, pools, route);
      SearchInOrder(OutDenom(p, d), to, pools, route + [HopThrough(p, d)]);
      JoinInOrder(n, d, pools, route, SearchThrough(n - 1, d, to, pools, route),
                  Search(OutDenom(p, d), to, pools, route + [HopThrough(p, d)]));
    }
  }

  lemma {:induction false} JoinInOrder(
      n: nat, d: Denom, pools: seq<Pool>, route: Route, before: seq<Route>, after: seq<Route>)
    requires 0 < n <= |Starts(pools, d, route)|
    requires GoOn(route, before) && InOrder(pools, before)
    requires LeaveThrough(Starts(pools, d, route), n - 1, route, before)
    requires GoOn(route + [HopThrough(Starts(pools, d, route)[n - 1], d)], after) && InOrder(pools, after)
    ensures GoOn(route, before + after) && InOrder(pools, before + after)
    ensures LeaveThrough(Starts(pools, d, route), n, route, before + after)
  {
    hide Starts, InOrder, Precedes;
    var starts, k := Starts(pools, d, route), |route|;
    var longer := route + [HopThrough(starts[n - 1], d)];
    forall j | 0 <= j < |after|
      ensures k < |after[j]| && after[j][..k] == route && after[j][k].poolId == starts[n - 1].id
    {
      assert after[j][..k + 1] == longer && after[j][..k] == longer[..k] == route;
      assert after[j][k] == longer[k];
    }
    forall i, j | 0 <= i < |before| && 0 <= j < |after|
      ensures Earlier(pools, before[i], after[j])
    {
      assert LeavesBy(starts, n - 1, before[i][k].poolId);
      var x: nat :| 0 <= x < n - 1 && starts[x].id == before[i][k].poolId;
      StartsInOrder(pools, d, route, x, n - 1);
      assert PartsEarlier(pools, before[i], after[j], k);
    }
    hide Earlier;
    AppendInOrder(pools, before, after);
  }

  /** Of two listed routes, the one listed first parts from the other through a pool that stands earlier. */
  lemma {:induction false} GetRoutesInOrder(pools: seq<Pool>, from: Denom, to: Denom, i: nat, j: nat)
    requires i < j < |Search(from, to, pools, [])|
    ensures Earlier(pools, Search(from, to, pools, [])[i], Search(from, to, pools, [])[j])
  {
    hide Search, Earlier;
    SearchInOrder(from, to, pools, []);
  }
}
