/** Liquidity pools and the hops a route makes through them (types/Pool.ts, types/RouteHop.ts). */
module Pools {

  type Denom = string

  datatype PoolAsset = PoolAsset(denom: Denom, amount: real)

  datatype Pool = Pool(id: nat, swapFee: real, assets: seq<PoolAsset>) {
    predicate Tradable() { |assets| > 1 }

    /** One of the two leading assets is `d`. */
    predicate Holds(d: Denom) {
      Tradable() && (assets[0].denom == d || assets[1].denom == d)
    }
  }

  datatype RouteHop = RouteHop(
    poolId: nat, tokenIn: Denom, tokenOut: Denom, swapFee: real, x1: real, y1: real)

  type Route = seq<RouteHop>

  /** Index, among the two leading assets, of the asset bought when `d` is sold. */
  function OutIndex(p: Pool, d: Denom): nat
    requires p.Tradable()
  {
    if p.assets[0].denom == d then 1 else 0
  }

  function OutDenom(p: Pool, d: Denom): Denom
    requires p.Tradable()
  {
    p.assets[OutIndex(p, d)].denom
  }

  /** The hop that sells `d` into `p`: the pool's own fee and its two leading reserves, oriented. */
  function HopThrough(p: Pool, d: Denom): RouteHop
    requires p.Tradable()
  {
    var out := OutIndex(p, d);
    RouteHop(p.id, d, p.assets[out].denom, p.swapFee, p.assets[1 - out].amount, p.assets[out].amount)
  }

  function UsedPools(route: Route): set<nat> {
    set h | h in route :: h.poolId
  }

  /** The denom a trade that started in `from` holds before hop `i` of `route`. */
  function DenomAt(from: Denom, route: Route, i: nat): Denom
    requires i <= |route|
  {
    if i == 0 then from else route[i - 1].tokenOut
  }

  ghost predicate UniqueIds(pools: seq<Pool>) {
    forall i, j :: 0 <= i < j < |pools| ==> pools[i].id != pools[j].id
  }

  /** Positive reserves and a fee in [0, 1): what the chain guarantees of a live pool. */
  predicate SoundHop(h: RouteHop) {
    h.x1 > 0.0 && h.y1 > 0.0 && 0.0 <= h.swapFee < 1.0
  }

  predicate SoundPool(p: Pool) {
    0.0 <= p.swapFee < 1.0 && (p.Tradable() ==> p.assets[0].amount > 0.0 && p.assets[1].amount > 0.0)
  }

  predicate SoundRoute(route: Route) {
    forall h :: h in route ==> SoundHop(h)
  }
}
