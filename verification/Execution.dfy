/** Executing a route hop by hop against live reserves, compared with pricing it from its snapshots. */
module Execution {
  import opened Algebra
  import opened Pools
  import opened Pricing
  import opened RouteSearch

  /** Live pools by id, and the single coin being traded. */
  datatype Trade = Trade(book: map<nat, Pool>, denom: Denom, amount: real)

  function Book(pools: seq<Pool>): (book: map<nat, Pool>)
    requires UniqueIds(pools)
    ensures forall p :: p in pools ==> p.id in book && book[p.id] == p
    ensures forall id :: id in book ==> book[id] in pools && book[id].id == id
  {
    if pools == [] then map[]
    else
      var front, p := pools[..|pools| - 1], pools[|pools| - 1];
      assert pools == front + [p];
      assert forall q :: q in front ==> q.id != p.id;
      Book(front)[p.id := p]
  }

  /** The pool after `amount` of `d` was sold into it; the fee stays in the pool. */
  function Swapped(p: Pool, d: Denom, amount: real): Pool
    requires p.Tradable() && HopThrough(p, d).x1 + amount != 0.0
  {
    var out := OutIndex(p, d);
    var sold := p.assets[1 - out].(amount := p.assets[1 - out].amount + amount);
    var bought := p.assets[out].(amount := p.assets[out].amount - HopOutput(HopThrough(p, d), amount));
    p.(assets := p.assets[1 - out := sold][out := bought])
  }

  /** One swap message: sell the coin held into pool `id`. A message the pool cannot serve changes nothing. */
  function Swap(t: Trade, id: nat): Trade {
    if id in t.book && t.book[id].Holds(t.denom) && HopThrough(t.book[id], t.denom).x1 + t.amount != 0.0 then
      var p := t.book[id];
      var bought := HopOutput(HopThrough(p, t.denom), t.amount);
      Trade(t.book[id := Swapped(p, t.denom, t.amount)], OutDenom(p, t.denom), bought)
    else t
  }

  function Execute(t: Trade, route: Route): Trade {
    if route == [] then t else Swap(Execute(t, route[..|route| - 1]), route[|route| - 1].poolId)
  }

  function Product(p: Pool): real {
    if p.Tradable() then p.assets[0].amount * p.assets[1].amount else 0.0
  }

  /** A swap never lowers the product of the two reserves. */
  lemma {:induction false} SwapKeepsProduct(p: Pool, d: Denom, amount: real)
    requires SoundPool(p) && p.Tradable() && amount > 0.0
    ensures Product(Swapped(p, d, amount)) >= Product(p)
  {
    hide HopOutput, Pays;
    var h := HopThrough(p, d);
    HopPays(h, amount);
    TimesKeepsOrder(0.0, h.swapFee, h.y1);
    Algebra.SwapKeepsProduct(HopOutput(h, amount), amount, h.x1, h.y1, h.y1 * h.swapFee);
  }

  lemma {:induction false} SearchedHopsAreSound(pools: seq<Pool>, from: Denom, to: Denom, r: Route)
    requires IsRoute(pools, from, to, r)
    requires forall p :: p in pools ==> SoundPool(p)
    ensures SoundRoute(r)
  {
    forall i | 0 <= i < |r|
      ensures SoundHop(r[i])
    {
      assert FreshHop(pools, from, r, i);
    }
  }

  /** After `k` hops: the amount is the priced one, unused pools are untouched, used ones no poorer. */
  ghost predicate InStep(pools: seq<Pool>, from: Denom, amount: real, r: Route, k: nat, t: Trade)
    requires k <= |r| && SoundRoute(r) && amount > 0.0
  {
    && t.denom == DenomAt(from, r, k)
    && SoundRoute(r[..k]) && t.amount == Through(amount, r[..k])
    && Kept(pools, UsedPools(r[..k]), t.book)
  }

  lemma {:induction false} ExecutesInStep(pools: seq<Pool>, from: Denom, to: Denom, amount: real, r: Route, k: nat)
    requires UniqueIds(pools) && IsRoute(pools, from, to, r) && SoundRoute(r)
    requires forall p :: p in pools ==> SoundPool(p)
    requires amount > 0.0 && k <= |r|
    ensures InStep(pools, from, amount, r, k, Execute(Trade(Book(pools), from, amount), r[..k]))
  {
    hide Swap, FreshHop;
    if k > 0 {
      hide InStep;
      ExecutesInStep(pools, from, to, amount, r, k - 1);
      assert r[..k][..k - 1] == r[..k - 1];
      var t := Execute(Trade(Book(pools), from, amount), r[..k - 1]);
      assert FreshHop(pools, from, r, k - 1);
      OneStep(pools, from, amount, r, k, t);
    }
  }

  /** Pools whose ids are not in `used` are as they were, and none has a smaller product. */
  ghost predicate Kept(pools: seq<Pool>, used: set<nat>, book: map<nat, Pool>) {
    && (forall p :: p in pools && p.id !in used ==> p.id in book && book[p.id] == p)
    && (forall p :: p in pools ==> p.id in book && Product(book[p.id]) >= Product(p))
  }

  lemma {:induction false} KeptAfter(pools: seq<Pool>, used: set<nat>, book: map<nat, Pool>, p: Pool, after: Pool)
    requires UniqueIds(pools) && p in pools && Kept(pools, used, book) && Product(after) >= Product(p)
    ensures Kept(pools, used + {p.id}, book[p.id := after])
  {
    hide Product;
    assert forall q :: q in pools && q.id == p.id ==> q == p;
  }

  lemma {:induction false} RouteSnoc(amount: real, front: Route, h: RouteHop)
    requires SoundRoute(front + [h]) && amount > 0.0
    ensures UsedPools(front + [h]) == UsedPools(front) + {h.poolId} && SoundRoute(front) && SoundHop(h)
    ensures Through(amount, front) > 0.0 && Through(amount, front + [h]) == HopOutput(h, Through(amount, front))
  {
    assert (front + [h])[..|front|] == front;
  }

  lemma {:induction false} OneStep(pools: seq<Pool>, from: Denom, amount: real, r: Route, k: nat, t: Trade)
    requires 0 < k <= |r| && SoundRoute(r) && amount > 0.0 && UniqueIds(pools)
    requires forall p :: p in pools ==> SoundPool(p)
    requires FreshHop(pools, from, r, k - 1) && InStep(pools, from, amount, r, k - 1, t)
    ensures InStep(pools, from, amount, r, k, Swap(t, r[k - 1].poolId))
  {
    var d := t.denom;
    var p :| p in pools && p.Holds(d) && p.id !in UsedPools(r[..k - 1]) && r[k - 1] == HopThrough(p, d);
    assert SoundRoute(r[..k]);
    hide Product, Through, HopOutput, UsedPools, Swapped;
    assert r[..k] == r[..k - 1] + [r[k - 1]];
    RouteSnoc(amount, r[..k - 1], r[k - 1]);
    assert t.book[p.id] == p && t.amount > 0.0;
    SwapKeepsProduct(p, d, t.amount);
    KeptAfter(pools, UsedPools(r[..k - 1]), t.book, p, Swapped(p, d, t.amount));
  }

  /**
   * Because a searched route never uses a pool twice, its static price is what executing it against
   * the live pools pays, in the target denom, and no pool's reserve product falls.
   */
  lemma {:induction false} PriceIsExecution(pools: seq<Pool>, from: Denom, to: Denom, amount: real, r: Route)
    requires UniqueIds(pools) && r in Search(from, to, pools, [])
    requires forall p :: p in pools ==> SoundPool(p)
    requires amount > 0.0
    ensures SoundRoute(r)
    ensures var t := Execute(Trade(Book(pools), from, amount), r);
            && t.amount == Output(amount, r)
            && t.denom == to
            && (forall p :: p in pools ==> p.id in t.book && Product(t.book[p.id]) >= Product(p))
            && (forall p :: p in pools && p.id !in UsedPools(r) ==> t.book[p.id] == p)
  {
    GetRoutesIsExact(pools, from, to, r);
    SearchedHopsAreSound(pools, from, to, r);
    ExecutesInStep(pools, from, to, amount, r, |r|);
    assert r[..|r|] == r;
  }

  // ----- Coins are conserved --------------------------------------------------------------------

  /** What the two leading reserves of a pool hold of a denom. */
  function Reserve(p: Pool, d: Denom): real {
    if !p.Tradable() then 0.0
    else
      (if p.assets[0].denom == d then p.assets[0].amount else 0.0)
      + (if p.assets[1].denom == d then p.assets[1].amount else 0.0)
  }

  /** What the pools hold together, as the book has them now. */
  function Reserves(pools: seq<Pool>, book: map<nat, Pool>, d: Denom): real {
    if pools == [] then 0.0
    else
      var front, p := pools[..|pools| - 1], pools[|pools| - 1];
      Reserves(front, book, d) + if p.id in book then Reserve(book[p.id], d) else 0.0
  }

  function Supply(pools: seq<Pool>, t: Trade, d: Denom): real {
    Reserves(pools, t.book, d) + if t.denom == d then t.amount else 0.0
  }

  lemma {:induction false} OtherPoolsKeep(pools: seq<Pool>, book: map<nat, Pool>, id: nat, after: Pool, d: Denom)
    requires forall p :: p in pools ==> p.id != id
    ensures Reserves(pools, book[id := after], d) == Reserves(pools, book, d)
  {
    if pools != [] {
      OtherPoolsKeep(pools[..|pools| - 1], book, id, after, d);
    }
  }

  lemma {:induction false} OnePoolChanges(pools: seq<Pool>, book: map<nat, Pool>, id: nat, after: Pool, d: Denom)
    requires UniqueIds(pools) && id in book && exists p :: p in pools && p.id == id
    ensures Reserves(pools, book[id := after], d) == Reserves(pools, book, d) - Reserve(book[id], d) + Reserve(after, d)
  {
    hide Reserve;
    var front, last := pools[..|pools| - 1], pools[|pools| - 1];
    assert pools == front + [last];
    if last.id == id {
      OtherPoolsKeep(front, book, id, after, d);
    } else {
      OnePoolChanges(front, book, id, after, d);
    }
  }

  lemma {:induction false} SwapMovesCoins(p: Pool, sold: Denom, amount: real, d: Denom)
    requires p.Holds(sold) && HopThrough(p, sold).x1 + amount != 0.0
    ensures Reserve(Swapped(p, sold, amount), d)
            == Reserve(p, d) + (if d == sold then amount else 0.0)
               - (if d == OutDenom(p, sold) then HopOutput(HopThrough(p, sold), amount) else 0.0)
  {
    hide HopOutput;
  }

  /** Whatever is traded along whatever route, no coin of any denom is made or lost. */
  lemma {:induction false} CoinsAreConserved(pools: seq<Pool>, t: Trade, route: Route, d: Denom)
    requires UniqueIds(pools) && forall id :: id in t.book ==> exists p :: p in pools && p.id == id
    ensures Supply(pools, Execute(t, route), d) == Supply(pools, t, d)
    ensures Execute(t, route).book.Keys == t.book.Keys
  {
    if route != [] {
      hide Reserves, Swapped, HopOutput;
      var front, id := route[..|route| - 1], route[|route| - 1].poolId;
      CoinsAreConserved(pools, t, front, d);
      SwapConserves(pools, Execute(t, front), id, d);
    }
  }

  lemma {:induction false} SwapConserves(pools: seq<Pool>, t: Trade, id: nat, d: Denom)
    requires UniqueIds(pools) && (id in t.book ==> exists p :: p in pools && p.id == id)
    ensures Supply(pools, Swap(t, id), d) == Supply(pools, t, d)
    ensures Swap(t, id).book.Keys == t.book.Keys
  {
    hide Reserves, Reserve, Swapped, HopOutput;
    if id in t.book && t.book[id].Holds(t.denom) && HopThrough(t.book[id], t.denom).x1 + t.amount != 0.0 {
      var p := t.book[id];
      OnePoolChanges(pools, t.book, id, Swapped(p, t.denom, t.amount), d);
      SwapMovesCoins(p, t.denom, t.amount, d);
    }
  }
}
