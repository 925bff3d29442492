/** Borrowing what a liquidation needs (rover/LiquidationActionGenerator.ts). */
module Rover {
  import opened Algebra
  import opened BestRoute
  import opened Numbers
  import opened Pools
  import opened Prelude
  import opened Pricing
  import opened Rounding
  import opened RouteSearch
  import opened Sorting

  const GENERIC_BUFFER := 0.99
  const DEFAULT_SLIPPAGE := "0.005"
  const NO_ROUTE_FOR_SWAP := "Failed to find a suitable route for given assets"
  const NO_VALID_MARKET := "Failed to find a valid market to borrow from"

  datatype MarketInfo = MarketInfo(denom: Denom, borrowEnabled: bool, liquidity: nat)

  datatype Debt = Debt(amount: real, denom: Denom, price: real)

  datatype Collateral = Collateral(amount: real, denom: Denom, price: real, closeFactor: real)

  datatype Coin = Coin(denom: Denom, amount: int)

  /** An amount of None is printed for what is not a finite number; no chain takes such a message. */
  datatype Action =
    | Borrow(denom: Denom, amount: Option<int>)
    | SwapExactIn(denomIn: Denom, denomOut: Denom, slippage: string)

  predicate SoundDebt(debt: Debt) { debt.amount >= 0.0 && debt.price >= 0.0 }

  function MaxRepayValue(collateral: Collateral): real {
    collateral.amount * collateral.price * collateral.closeFactor
  }

  predicate SoundCollateral(collateral: Collateral) { MaxRepayValue(collateral) >= 0.0 }

  /** Amount of debt that the seizable collateral is worth, at most the whole debt. */
  function RepayAmount(debt: Debt, collateral: Collateral): real
    requires SoundDebt(debt) && SoundCollateral(collateral)
  {
    var maxDebtValue := debt.amount * debt.price;
    debt.amount * if maxDebtValue <= MaxRepayValue(collateral) then 1.0 else MaxRepayValue(collateral) / maxDebtValue
  }

  predicate RatioBelow(liquidity: nat, amount: real, bound: real) {
    Less(Divide(Finite(liquidity as real), Finite(amount)), Finite(bound))
  }

  function Buffered(liquidity: nat): real {
    liquidity as real * GENERIC_BUFFER
  }

  function FindMarket(markets: seq<MarketInfo>, denom: Denom): Option<MarketInfo> {
    if markets == [] then None
    else if markets[0].denom == denom then Some(markets[0])
    else FindMarket(markets[1..], denom)
  }

  // ----- Choosing the market to borrow from -----------------------------------------------------

  /** The order in which borrowWithoutLiquidity sorts markets, for a debt of `amount` in `denom`. */
  datatype Comparison = Comparison(pools: seq<Pool>, denom: Denom, amount: real) {
    function Route(m: MarketInfo): Pools.Route {
      BestGivenOutput(pools, m.denom, denom, amount)
    }

    function Input(m: MarketInfo): Num {
      Quote(amount, Route(m))
    }

    predicate Sufficient(m: MarketInfo) {
      Less(Input(m), Finite(Buffered(m.liquidity)))
    }

    function Share(m: MarketInfo): Num {
      Divide(Finite(m.liquidity as real), Input(m))
    }

    /** The number the comparator returns. */
    function Compare(a: MarketInfo, b: MarketInfo): Num {
      if !Sufficient(a) && !Sufficient(b) then Minus(Share(a), Share(b))
      else if Sufficient(a) && !Sufficient(b) then Finite(1.0)
      else if !Sufficient(a) && Sufficient(b) then Finite(-1.0)
      else Minus(Input(a), Input(b))
    }

    /** `sort` takes what is not a number for zero. */
    predicate Before(a: MarketInfo, b: MarketInfo) {
      !Positive(Compare(a, b))
    }

    function Candidates(markets: seq<MarketInfo>): (r: seq<MarketInfo>)
      ensures forall m :: m in r <==> m in markets && m.borrowEnabled && m.denom != denom
    {
      Filter(markets, (m: MarketInfo) => m.borrowEnabled && m.denom != denom)
    }

    /** Candidates keep the order in which the markets are listed. */
    lemma {:induction false} CandidatesInOrder(markets: seq<MarketInfo>, i: nat, j: nat)
      requires i < j < |Candidates(markets)|
      ensures exists x, y :: 0 <= x < y < |markets|
                             && markets[x] == Candidates(markets)[i] && markets[y] == Candidates(markets)[j]
    {
      var x, y := FilterKeepsOrder(markets, (m: MarketInfo) => m.borrowEnabled && m.denom != denom, i, j);
    }

    function Best(markets: seq<MarketInfo>): Option<MarketInfo> {
      var candidates := Candidates(markets);
      if candidates == [] then None
      else Some(StableSort(candidates, (a, b) => Before(a, b))[|candidates| - 1])
    }

    /** A quote that can be compared, and something to lend or something to pay: never zero by zero. */
    predicate Live(m: MarketInfo) {
      !Input(m).NotANumber? && (m.liquidity > 0 || Input(m) != Finite(0.0))
    }

    lemma {:induction false} ShortMarketsShare(m: MarketInfo)
      requires Live(m) && !Sufficient(m)
      ensures Share(m).Finite? && Positive(Input(m))
    {
      hide Input;
    }

    lemma {:induction false} BeforeIsOrder(a: MarketInfo, b: MarketInfo)
      requires Live(a) && Live(b)
      ensures Before(a, b)
              <==> if Sufficient(a) then Sufficient(b) && AtMost(Input(a), Input(b))
                   else Sufficient(b) || AtMost(Share(a), Share(b))
    {
      hide Input, Sufficient, Share, Live;
      if !Sufficient(a) && !Sufficient(b) {
        ShortMarketsShare(a);
        ShortMarketsShare(b);
        DifferenceOrders(Share(a), Share(b));
      } else if Sufficient(a) && Sufficient(b) {
        LiveIsNumber(a);
        LiveIsNumber(b);
        DifferenceOrders(Input(a), Input(b));
      }
    }

    /** Among live markets the comparator is a total preorder: sufficiency first, then share or cost. */
    lemma {:induction false} ComparatorPreorders(markets: seq<MarketInfo>)
      requires forall m :: m in markets ==> Live(m)
      ensures Preorders((a: MarketInfo, b: MarketInfo) => Before(a, b), markets)
    {
      hide Input, Sufficient, Share, Live, Before;
      forall a, b | a in markets && b in markets
        ensures Before(a, b)
                <==> if Sufficient(a) then Sufficient(b) && AtMost(Input(a), Input(b))
                     else Sufficient(b) || AtMost(Share(a), Share(b))
        ensures !Input(a).NotANumber? && (!Sufficient(a) ==> Share(a).Finite?)
      {
        BeforeIsOrder(a, b);
        LiveIsNumber(a);
      }
    }

    lemma {:induction false} LiveIsNumber(m: MarketInfo)
      requires Live(m)
      ensures !Input(m).NotANumber? && (!Sufficient(m) ==> Share(m).Finite?)
    {
      hide Input;
    }

    lemma {:induction false} BestIsGreatest(markets: seq<MarketInfo>) returns (best: MarketInfo)
      requires forall m :: m in Candidates(markets) ==> Live(m)
      requires Candidates(markets) != []
      ensures Best(markets) == Some(best) && best in Candidates(markets)
      ensures forall m :: m in Candidates(markets) ==> Before(m, best)
    {
      hide Before, Live, Preorders, StableSort, Candidates;
      var candidates := Candidates(markets);
      ComparatorPreorders(candidates);
      var le := (a: MarketInfo, b: MarketInfo) => Before(a, b);
      var k := PopIsLastGreatest(candidates, le);
      best := candidates[k];
      forall m | m in candidates
        ensures Before(m, best)
      {
        var i :| 0 <= i < |candidates| && candidates[i] == m;
        assert le(candidates[i], candidates[k]);
      }
    }

    /** If any enabled market has enough liquidity, the chosen one has; and it is the costliest of those. */
    lemma {:induction false} BestSufficesAndIsCostliest(markets: seq<MarketInfo>) returns (best: MarketInfo)
      requires forall m :: m in Candidates(markets) ==> Live(m)
      requires exists m :: m in Candidates(markets) && Sufficient(m)
      ensures Best(markets) == Some(best) && best in Candidates(markets) && Sufficient(best)
      ensures forall m :: m in Candidates(markets) && Sufficient(m) ==> AtMost(Input(m), Input(best))
    {
      hide Input, Candidates, Best, Live;
      best := BestIsGreatest(markets);
      hide Sufficient;
      var some :| some in Candidates(markets) && Sufficient(some);
      assert Before(some, best);
    }

    /**
     * Which market is chosen, ties included: if some candidate's quote is less than 99 percent of its
     * liquidity, the last of the costliest such; if none is, the last of those whose liquidity covers the
     * largest share of the quote.
     */
    lemma {:induction false} ChosenMarketIs(markets: seq<MarketInfo>) returns (k: nat)
      requires Candidates(markets) != [] && forall m :: m in Candidates(markets) ==> Live(m)
      ensures var candidates := Candidates(markets);
              && k < |candidates| && Best(markets) == Some(candidates[k])
              && (forall i :: 0 <= i < |candidates| ==> Outdone(candidates[i], candidates[k], false))
              && (forall i :: k < i < |candidates| ==> Outdone(candidates[i], candidates[k], true))
    {
      hide Before, Live, Preorders, StableSort, Candidates, Outdone;
      var candidates := Candidates(markets);
      ComparatorPreorders(candidates);
      k := PopIsLastGreatest(candidates, (a: MarketInfo, b: MarketInfo) => Before(a, b));
      forall i | 0 <= i < |candidates|
        ensures Outdone(candidates[i], candidates[k], false)
        ensures i > k ==> Outdone(candidates[i], candidates[k], true)
      {
        OutdoneIff(candidates[i], candidates[k], false);
        OutdoneIff(candidates[i], candidates[k], true);
      }
    }

    /** `best` is preferred to `m`, strictly if asked. */
    ghost predicate Outdone(m: MarketInfo, best: MarketInfo, strictly: bool) {
      var quote := Quote(amount, BestGivenOutput(pools, m.denom, denom, amount));
      var bestQuote := Quote(amount, BestGivenOutput(pools, best.denom, denom, amount));
      var suffices := Less(quote, Finite(m.liquidity as real * 0.99));
      var bestSuffices := Less(bestQuote, Finite(best.liquidity as real * 0.99));
      var share := Divide(Finite(m.liquidity as real), quote);
      var bestShare := Divide(Finite(best.liquidity as real), bestQuote);
      if suffices != bestSuffices then bestSuffices
      else if suffices then (if strictly then Less(quote, bestQuote) else AtMost(quote, bestQuote))
      else if strictly then Less(share, bestShare) else AtMost(share, bestShare)
    }

    lemma {:induction false} OutdoneIff(m: MarketInfo, best: MarketInfo, strictly: bool)
      requires Live(m) && Live(best)
      ensures Outdone(m, best, strictly) <==> Before(m, best) && (strictly ==> !Before(best, m))
    {
      OutdoneIs(m, best, strictly);
      BeforeIsOrder(m, best);
      BeforeIsOrder(best, m);
      LiveIsNumber(m);
      LiveIsNumber(best);
      StrictIff(Input(m), Input(best));
      StrictIff(Share(m), Share(best));
      hide Before, Live, Outdone, Input, Sufficient, Share, Less, AtMost;
    }

    lemma {:induction false} OutdoneIs(m: MarketInfo, best: MarketInfo, strictly: bool)
      ensures Outdone(m, best, strictly)
              <==> if Sufficient(m) != Sufficient(best) then Sufficient(best)
                   else if Sufficient(m) then
                     if strictly then Less(Input(m), Input(best)) else AtMost(Input(m), Input(best))
                   else if strictly then Less(Share(m), Share(best)) else AtMost(Share(m), Share(best))
    {
      hide Quote, BestGivenOutput, Less, AtMost, Divide;
    }

    /** It is the cheapest sufficient market exactly when all sufficient markets cost the same. */
    lemma {:induction false} BestIsCheapestIff(markets: seq<MarketInfo>) returns (best: MarketInfo)
      requires forall m :: m in Candidates(markets) ==> Live(m)
      requires exists m :: m in Candidates(markets) && Sufficient(m)
      ensures Best(markets) == Some(best)
      ensures (forall m :: m in Candidates(markets) && Sufficient(m) ==> AtMost(Input(best), Input(m)))
              <==> forall m, o :: m in Candidates(markets) && o in Candidates(markets) && Sufficient(m) && Sufficient(o)
                     ==> Input(m) == Input(o)
    {
      hide Input, Sufficient, Candidates, Best, Live;
      best := BestSufficesAndIsCostliest(markets);
    }
  }

  // ----- The generator --------------------------------------------------------------------------

  function Swaps(route: Route, slippage: string): seq<Action> {
    seq(|route|, i requires 0 <= i < |route| => SwapExactIn(route[i].tokenIn, route[i].tokenOut, slippage))
  }

  /** What is asked of a market that has to cover `input`. */
  function SafeBorrow(input: Num, liquidity: nat): Option<int> {
    var safe := if Less(Finite(liquidity as real), input) then Finite(Buffered(liquidity)) else input;
    if safe.Finite? then Some(ToFixed0(safe.value)) else None
  }

  class LiquidationActionGenerator {
    const router: AMMRouter
    /** SLIPPAGE_LIMIT, where the environment sets it. */
    const slippageLimit: Option<string>

    constructor (router: AMMRouter, slippageLimit: Option<string>)
      ensures this.router == router && this.slippageLimit == slippageLimit
    {
      this.router, this.slippageLimit := router, slippageLimit;
    }

    method ProduceBorrowActions(debt: Debt, collateral: Collateral, markets: seq<MarketInfo>)
      returns (r: Result<seq<Action>>)
      requires SoundDebt(debt) && SoundCollateral(collateral)
      ensures r == BorrowActions(router.pools, debt, collateral, markets)
    {
      var debtAmount := RepayAmount(debt, collateral);
      var debtCoin := Coin(debt.denom, ToFixed0(debtAmount));
      var marketInfo := FindMarket(markets, debt.denom);
      if marketInfo.None? || !marketInfo.value.borrowEnabled
         || RatioBelow(marketInfo.value.liquidity, debtAmount, 0.5)
      {
        r := BorrowWithoutLiquidity(debtCoin, markets);
        return;
      }
      if RatioBelow(marketInfo.value.liquidity, debtAmount, 1.0) {
        debtCoin := debtCoin.(amount := ToFixed0(Buffered(marketInfo.value.liquidity)));
      }
      r := Ok([Borrow(debtCoin.denom, Some(debtCoin.amount))]);
    }

    method BorrowWithoutLiquidity(debtCoin: Coin, markets: seq<MarketInfo>) returns (r: Result<seq<Action>>)
      ensures r == SwapBorrowActions(router.pools, debtCoin, markets)
      ensures var best := Comparison(router.pools, debtCoin.denom, debtCoin.amount as real).Best(markets);
              if best.None? then r == Err(NO_VALID_MARKET)
              else
                var route := BestGivenOutput(router.pools, best.value.denom, debtCoin.denom, debtCoin.amount as real);
                if route == [] then r == Err(NO_ROUTE_FOR_SWAP)
                else
                  && r.Ok? && |r.value| == |route| + 1
                  && r.value[0] == Borrow(best.value.denom,
                                          SafeBorrow(Quote(debtCoin.amount as real, route), best.value.liquidity))
                  && forall i :: 0 <= i < |route|
                       ==> r.value[i + 1] == SwapExactIn(route[i].tokenIn, route[i].tokenOut, "0.005")
    {
      hide Quote, Comparison.Best, BestGivenOutput, SafeBorrow, ToFixed0;
      var debtAmount := debtCoin.amount as real;
      ghost var cmp := Comparison(router.pools, debtCoin.denom, debtAmount);
      var bestMarket := Comparison(router.pools, debtCoin.denom, debtAmount).Best(markets);
      if bestMarket.None? {
        return Err(NO_VALID_MARKET);
      }
      var bestRoute := GetBestRouteGivenOutput(router, bestMarket.value.denom, debtCoin.denom, debtAmount);
      assert bestRoute == cmp.Route(bestMarket.value);
      if |bestRoute| == 0 {
        return Err(NO_ROUTE_FOR_SWAP);
      }
      var inputRequired := GetRequiredInput(debtAmount, bestRoute);
      assert inputRequired == cmp.Input(bestMarket.value);
      var borrow := Borrow(bestMarket.value.denom, SafeBorrow(inputRequired, bestMarket.value.liquidity));
      var actions := [borrow];
      for i := 0 to |bestRoute|
        invariant actions == [borrow] + Swaps(bestRoute, DEFAULT_SLIPPAGE)[..i]
      {
        actions := actions + [SwapExactIn(bestRoute[i].tokenIn, bestRoute[i].tokenOut, DEFAULT_SLIPPAGE)];
      }
      assert Swaps(bestRoute, DEFAULT_SLIPPAGE)[..|bestRoute|] == Swaps(bestRoute, DEFAULT_SLIPPAGE);
      r := Ok(actions);
    }

    method GenerateSwapActions(collateralWonDenom: Denom, debtBorrowedDenom: Denom, debtAmount: real)
      returns (r: Result<seq<Action>>)
      ensures var route := BestGivenOutput(router.pools, collateralWonDenom, debtBorrowedDenom, debtAmount);
              r == if route == [] then Err(NO_ROUTE_FOR_SWAP)
                   else Ok(Swaps(route, if slippageLimit.Some? then slippageLimit.value else DEFAULT_SLIPPAGE))
      ensures r.Ok? ==>
                var route := BestGivenOutput(router.pools, collateralWonDenom, debtBorrowedDenom, debtAmount);
                var slippage := if slippageLimit.Some? then slippageLimit.value else "0.005";
                && |r.value| == |route|
                && forall i :: 0 <= i < |route|
                     ==> r.value[i] == SwapExactIn(route[i].tokenIn, route[i].tokenOut, slippage)
    {
      var route := GetBestRouteGivenOutput(router, collateralWonDenom, debtBorrowedDenom, debtAmount);
      if |route| == 0 {
        return Err(NO_ROUTE_FOR_SWAP);
      }
      r := Ok(Swaps(route, if slippageLimit.Some? then slippageLimit.value else DEFAULT_SLIPPAGE));
    }
  }

  function SwapBorrowActions(pools: seq<Pool>, debtCoin: Coin, markets: seq<MarketInfo>): Result<seq<Action>> {
    var cmp := Comparison(pools, debtCoin.denom, debtCoin.amount as real);
    var best := cmp.Best(markets);
    if best.None? then Err(NO_VALID_MARKET)
    else if cmp.Route(best.value) == [] then Err(NO_ROUTE_FOR_SWAP)
    else
      var borrow := Borrow(best.value.denom, SafeBorrow(cmp.Input(best.value), best.value.liquidity));
      Ok([borrow] + Swaps(cmp.Route(best.value), DEFAULT_SLIPPAGE))
  }

  /** The debt's own market can lend at least half of what is wanted. */
  predicate Direct(debt: Debt, collateral: Collateral, markets: seq<MarketInfo>)
    requires SoundDebt(debt) && SoundCollateral(collateral)
  {
    var market := FindMarket(markets, debt.denom);
    market.Some? && market.value.borrowEnabled
    && !RatioBelow(market.value.liquidity, RepayAmount(debt, collateral), 0.5)
  }

  /** The direct borrow before rounding. */
  function DirectAmount(debt: Debt, collateral: Collateral, liquidity: nat): real
    requires SoundDebt(debt) && SoundCollateral(collateral)
  {
    var amount := RepayAmount(debt, collateral);
    if RatioBelow(liquidity, amount, 1.0) then Buffered(liquidity) else amount
  }

  function BorrowActions(
      pools: seq<Pool>, debt: Debt, collateral: Collateral, markets: seq<MarketInfo>): Result<seq<Action>>
    requires SoundDebt(debt) && SoundCollateral(collateral)
  {
    if Direct(debt, collateral, markets) then
      var market := FindMarket(markets, debt.denom).value;
      Ok([Borrow(debt.denom, Some(ToFixed0(DirectAmount(debt, collateral, market.liquidity))))])
    else SwapBorrowActions(pools, Coin(debt.denom, ToFixed0(RepayAmount(debt, collateral))), markets)
  }

  // ----- What is borrowed -----------------------------------------------------------------------

  /** The repayment is worth at most the collateral value times the close factor, and at most the debt. */
  lemma {:induction false} RepayWithinCollateral(debt: Debt, collateral: Collateral)
    requires SoundDebt(debt) && SoundCollateral(collateral)
    ensures 0.0 <= RepayAmount(debt, collateral) <= debt.amount
    ensures RepayAmount(debt, collateral) * debt.price <= collateral.amount * collateral.price * collateral.closeFactor
  {
    var owed, cap, repaid := debt.amount * debt.price, MaxRepayValue(collateral), RepayAmount(debt, collateral);
    TimesKeepsOrder(0.0, debt.price, debt.amount);
    if owed <= cap {
      assert repaid == debt.amount * 1.0 == debt.amount;
      assert repaid * debt.price == owed;
    } else {
      CappedShare(debt.amount, debt.price, cap);
      assert repaid == debt.amount * (cap / owed);
    }
  }

  lemma {:induction false} CappedShare(amount: real, price: real, cap: real)
    requires amount >= 0.0 && price >= 0.0 && amount * price > cap >= 0.0
    ensures var part := amount * (cap / (amount * price)); 0.0 <= part <= amount && part * price == cap
  {
    var owed := amount * price;
    var q := cap / owed;
    assert q * owed == cap;
    ScaleCompare(q, 1.0, owed);
    ScaleCompare(0.0, q, owed);
    TimesKeepsOrder(q, 1.0, amount);
    TimesKeepsOrder(0.0, q, amount);
    var part := amount * (cap / owed);
    assert part == q * amount;
    assert 0.0 * amount == 0.0 && 1.0 * amount == amount;
    calc {
      part * price;
      q * amount * price;
      q * owed;
    }
  }

  /** It is the greatest such repayment. */
  lemma {:induction false} RepayIsGreatest(debt: Debt, collateral: Collateral, a: real)
    requires SoundDebt(debt) && SoundCollateral(collateral)
    requires 0.0 <= a <= debt.amount
    requires a * debt.price <= collateral.amount * collateral.price * collateral.closeFactor
    ensures a <= RepayAmount(debt, collateral)
  {
    var owed, cap, repaid := debt.amount * debt.price, MaxRepayValue(collateral), RepayAmount(debt, collateral);
    TimesKeepsOrder(0.0, debt.price, debt.amount);
    if owed <= cap {
      assert repaid == debt.amount * 1.0 == debt.amount;
    } else {
      CappedShare(debt.amount, debt.price, cap);
      assert repaid == debt.amount * (cap / owed) && repaid * debt.price == cap;
      PriceIsPositive(debt.amount, debt.price);
      ScaleCompare(repaid, a, debt.price);
    }
  }

  lemma {:induction false} PriceIsPositive(amount: real, price: real)
    requires price >= 0.0 && amount * price > 0.0
    ensures price > 0.0
  {
    assert amount * 0.0 == 0.0;
  }

  lemma {:induction false} BelowHalfMeansTooShort(liquidity: nat, amount: real)
    requires amount >= 0.0
    ensures RatioBelow(liquidity, amount, 0.5) <==> liquidity as real < 0.5 * amount
  {
    if amount > 0.0 {
      QuotientBelow(liquidity as real, amount, 0.5);
    }
  }

  /** The first market listed for the denom is asked. */
  lemma {:induction false} FoundIsFirst(markets: seq<MarketInfo>, denom: Denom)
    ensures FindMarket(markets, denom).None? <==> forall m :: m in markets ==> m.denom != denom
    ensures FindMarket(markets, denom).Some?
            ==> exists k: nat :: k < |markets| && markets[k] == FindMarket(markets, denom).value
                                 && markets[k].denom == denom && forall i :: 0 <= i < k ==> markets[i].denom != denom
  {
    if markets != [] && markets[0].denom != denom {
      FoundIsFirst(markets[1..], denom);
      assert markets == [markets[0]] + markets[1..];
      if FindMarket(markets[1..], denom).Some? {
        var k: nat :| k < |markets[1..]| && markets[1..][k] == FindMarket(markets[1..], denom).value
                      && markets[1..][k].denom == denom && forall i :: 0 <= i < k ==> markets[1..][i].denom != denom;
        assert markets[k + 1] == markets[1..][k];
        assert forall i :: 0 < i < k + 1 ==> markets[i] == markets[1..][i - 1];
      }
    }
  }

  /**
   * What is borrowed directly: where the first market of the debt's denom is enabled and holds at least
   * half of the greatest repayment, the repayment if it holds that, else 99 percent of what it holds, rounded.
   * Otherwise the rounded repayment is borrowed through another market.
   */
  lemma {:induction false} BorrowActionsAre(
      pools: seq<Pool>, debt: Debt, collateral: Collateral, markets: seq<MarketInfo>)
    requires SoundDebt(debt) && SoundCollateral(collateral)
    ensures var wanted, market := RepayAmount(debt, collateral), FindMarket(markets, debt.denom);
            BorrowActions(pools, debt, collateral, markets)
            == if market.Some? && market.value.borrowEnabled && market.value.liquidity as real >= 0.5 * wanted then
                 var holds := market.value.liquidity as real;
                 Ok([Borrow(debt.denom, Some(ToFixed0(if holds >= wanted then wanted else holds * 0.99)))])
               else SwapBorrowActions(pools, Coin(debt.denom, ToFixed0(wanted)), markets)
  {
    RepayWithinCollateral(debt, collateral);
    hide RepayAmount, RatioBelow, SwapBorrowActions, ToFixed0;
    var wanted, market := RepayAmount(debt, collateral), FindMarket(markets, debt.denom);
    if market.Some? {
      BelowHalfMeansTooShort(market.value.liquidity, wanted);
      BelowOneMeansShort(market.value.liquidity, wanted);
    }
  }

  lemma {:induction false} BelowOneMeansShort(liquidity: nat, amount: real)
    requires amount >= 0.0
    ensures RatioBelow(liquidity, amount, 1.0) <==> liquidity as real < amount
  {
    if amount > 0.0 {
      QuotientBelow(liquidity as real, amount, 1.0);
    }
  }

  /** On the direct path: no more than the market holds, and no more value than the collateral backs. */
  lemma {:induction false} DirectBorrowIsBacked(debt: Debt, collateral: Collateral, liquidity: nat)
    requires SoundDebt(debt) && SoundCollateral(collateral)
    ensures var amount := DirectAmount(debt, collateral, liquidity);
            && 0 <= ToFixed0(amount) <= liquidity
            && amount * debt.price <= collateral.amount * collateral.price * collateral.closeFactor
  {
    RepayWithinCollateral(debt, collateral);
    hide RepayAmount, MaxRepayValue;
    var wanted, amount := RepayAmount(debt, collateral), DirectAmount(debt, collateral, liquidity);
    BelowOneMeansShort(liquidity, wanted);
    assert Buffered(liquidity) <= liquidity as real;
    TimesKeepsOrder(amount, wanted, debt.price);
    NeverAboveWholeBound(amount, liquidity);
  }

  /** Whatever the path, the one borrow action asks its market for no more than it can lend. */
  lemma {:induction false} BorrowNeverExceedsLiquidity(
      pools: seq<Pool>, debt: Debt, collateral: Collateral, markets: seq<MarketInfo>)
    requires SoundDebt(debt) && SoundCollateral(collateral)
    requires BorrowActions(pools, debt, collateral, markets).Ok?
    ensures var actions := BorrowActions(pools, debt, collateral, markets).value;
            && actions != [] && actions[0].Borrow?
            && (forall i :: 0 < i < |actions| ==> actions[i].SwapExactIn?)
            && exists m :: m in markets && m.borrowEnabled && m.denom == actions[0].denom
                           && (actions[0].amount.Some? ==> actions[0].amount.value <= m.liquidity)
  {
    if Direct(debt, collateral, markets) {
      var market := FindMarket(markets, debt.denom).value;
      FoundMarketIsListed(markets, debt.denom);
      DirectBorrowIsBacked(debt, collateral, market.liquidity);
    } else {
      var coin := Coin(debt.denom, ToFixed0(RepayAmount(debt, collateral)));
      var cmp := Comparison(pools, coin.denom, coin.amount as real);
      var best := cmp.Best(markets).value;
      ChosenIsCandidate(cmp, markets);
      SafeBorrowCases(cmp.Input(best), best.liquidity);
    }
  }

  lemma {:induction false} SafeBorrowCases(input: Num, liquidity: nat)
    ensures input.Finite?
            ==> SafeBorrow(input, liquidity)
                == Some(ToFixed0(if input.value > liquidity as real then liquidity as real * 0.99 else input.value))
    ensures input == Infinite(true) ==> SafeBorrow(input, liquidity) == Some(ToFixed0(liquidity as real * 0.99))
    ensures SafeBorrow(input, liquidity).Some? ==> SafeBorrow(input, liquidity).value <= liquidity
    ensures input.NotANumber? ==> SafeBorrow(input, liquidity).None?
    ensures input.Finite? ==>
              var amount := SafeBorrow(input, liquidity);
              && amount.Some? && (amount.value >= 1 <==> input.value >= 0.5 && liquidity > 0)
              && (input.value >= 0.0 ==> amount.value >= 0) && (input.value < 0.0 ==> amount.value <= 0)
  {
    var safe := if Less(Finite(liquidity as real), input) then Finite(Buffered(liquidity)) else input;
    if safe.Finite? {
      NotAboveWholeBound(safe.value, liquidity);
    }
  }

  /**
   * A borrow to be swapped asks for something exactly when its quote rounds up to something and the
   * market holds something, and the quote is positive exactly when every hop of the route bears what it
   * is asked for. Otherwise a finite quote asks for nothing or less.
   */
  lemma {:induction false} SwapBorrowIsPositive(cmp: Comparison, m: MarketInfo)
    requires (forall p :: p in cmp.pools ==> SoundPool(p)) && cmp.amount > 0.0 && cmp.Route(m) != []
    ensures cmp.Input(m).Finite? && Positive(cmp.Input(m)) <==> AllBear(cmp.amount, cmp.Route(m))
    ensures var amount := SafeBorrow(cmp.Input(m), m.liquidity);
            && (AllBear(cmp.amount, cmp.Route(m)) ==> amount.Some? && amount.value >= 0)
            && (cmp.Input(m).Finite? ==> (amount == Some(0) || amount.value < 0
                                          <==> cmp.Input(m).value < 0.5 || m.liquidity == 0))
            && (cmp.Input(m).Finite? && !AllBear(cmp.amount, cmp.Route(m)) ==> amount.value <= 0)
    ensures Fills(cmp.amount, cmp.Route(m)) ==> AllBear(cmp.amount, cmp.Route(m))
  {
    hide Search, Quote, Fills, AllBear, FeeFree, SoundRoute, SoundPool, SafeBorrow;
    BestRouteIsSearched(cmp.pools, m.denom, cmp.denom, cmp.amount);
    SearchedIsSound(cmp.pools, m.denom, cmp.denom, cmp.Route(m));
    QuoteIsPositiveIff(cmp.amount, cmp.Route(m));
    SafeBorrowCases(cmp.Input(m), m.liquidity);
  }

  lemma {:induction false} ChosenIsCandidate(cmp: Comparison, markets: seq<MarketInfo>)
    ensures cmp.Best(markets).Some? ==> cmp.Best(markets).value in cmp.Candidates(markets)
  {
    var candidates := cmp.Candidates(markets);
    if candidates != [] {
      var le := (a, b) => cmp.Before(a, b);
      SortPermutes(candidates, le);
      var last := StableSort(candidates, le)[|candidates| - 1];
      assert last in multiset(StableSort(candidates, le));
      assert last in multiset(candidates);
    }
  }

  lemma {:induction false} FoundMarketIsListed(markets: seq<MarketInfo>, denom: Denom)
    ensures var found := FindMarket(markets, denom);
            found.Some? ==> found.value in markets && found.value.denom == denom
  {
    if markets != [] {
      FoundMarketIsListed(markets[1..], denom);
    }
  }

  // ----- What the actions do --------------------------------------------------------------------

  /** Balances of a credit account; a denom that is not listed has balance zero. */
  type Account = map<Denom, real>

  function Balance(account: Account, denom: Denom): real {
    if denom in account then account[denom] else 0.0
  }

  /** A swap sells the whole balance; `rate(k, amount)` is what the k-th action of the list pays for it. */
  function Apply(account: Account, action: Action, k: nat, rate: (nat, real) -> real): Account {
    match action
    case Borrow(denom, amount) =>
      if amount.None? then account else account[denom := Balance(account, denom) + amount.value as real]
    case SwapExactIn(denomIn, denomOut, _) =>
      var sold := account[denomIn := 0.0];
      sold[denomOut := Balance(sold, denomOut) + rate(k, Balance(account, denomIn))]
  }

  function Interpret(account: Account, actions: seq<Action>, rate: (nat, real) -> real): Account {
    if actions == [] then account
    else
      var k := |actions| - 1;
      Apply(Interpret(account, actions[..k], rate), actions[k], k, rate)
  }

  ghost predicate OnlyHolds(account: Account, denom: Denom) {
    forall d :: d != denom ==> Balance(account, d) == 0.0
  }

  ghost predicate Chained(from: Denom, route: Route) {
    forall i :: 0 <= i < |route| ==> route[i].tokenIn == DenomAt(from, route, i)
  }

  lemma {:induction false} SwapCarriesEverything(
      account: Account, from: Denom, to: Denom, slippage: string, k: nat, rate: (nat, real) -> real)
    requires OnlyHolds(account, from)
    ensures OnlyHolds(Apply(account, SwapExactIn(from, to, slippage), k, rate), to)
  {
    var after := Apply(account, SwapExactIn(from, to, slippage), k, rate);
    forall d | d != to
      ensures Balance(after, d) == 0.0
    {
      assert d != from ==> Balance(account, d) == 0.0;
      assert Balance(account[from := 0.0], d) == 0.0;
    }
  }

  lemma {:induction false} InterpretSnoc(
      account: Account, actions: seq<Action>, last: Action, rate: (nat, real) -> real)
    ensures Interpret(account, actions + [last], rate)
            == Apply(Interpret(account, actions, rate), last, |actions|, rate)
  {
    assert (actions + [last])[..|actions|] == actions;
  }

  lemma {:induction false} NowhereYet(from: Denom)
    ensures DenomAt(from, [], 0) == from
  {
  }

  lemma {:induction false} ChainFront(from: Denom, front: Route, hop: RouteHop)
    requires Chained(from, front + [hop])
    ensures Chained(from, front)
    ensures DenomAt(from, front, |front|) == hop.tokenIn && DenomAt(from, front + [hop], |front| + 1) == hop.tokenOut
  {
    assert forall i :: 0 <= i <= |front| ==> DenomAt(from, front, i) == DenomAt(from, front + [hop], i);
    assert (front + [hop])[|front|] == hop;
  }

  lemma {:induction false} NoSwaps(start: seq<Action>, slippage: string)
    ensures start + Swaps([], slippage) == start
  {
  }

  lemma {:induction false} SwapsSnoc(route: Route, hop: RouteHop, slippage: string)
    ensures Swaps(route + [hop], slippage)
            == Swaps(route, slippage) + [SwapExactIn(hop.tokenIn, hop.tokenOut, slippage)]
  {
  }

  /** Swapping along a chain carries everything from its first denom to its last, revisits included. */
  lemma {:induction false} SwapsCarryEverything(
      start: seq<Action>, from: Denom, route: Route, slippage: string, account: Account, rate: (nat, real) -> real)
    requires Chained(from, route) && OnlyHolds(Interpret(account, start, rate), from)
    ensures OnlyHolds(Interpret(account, start + Swaps(route, slippage), rate), DenomAt(from, route, |route|))
  {
    hide Apply, OnlyHolds, Interpret, Swaps, Chained, DenomAt;
    if route == [] {
      NoSwaps(start, slippage);
      NowhereYet(from);
    } else {
      var k := |route| - 1;
      var front, hop := route[..k], route[k];
      var here := hop.tokenIn;
      assert front + [hop] == route;
      ChainFront(from, front, hop);
      SwapsCarryEverything(start, from, front, slippage, account, rate);
      var before, last := start + Swaps(front, slippage), SwapExactIn(here, hop.tokenOut, slippage);
      SwapCarriesEverything(Interpret(account, before, rate), here, hop.tokenOut, slippage, |before|, rate);
      InterpretSnoc(account, before, last, rate);
      SwapsSnoc(front, hop, slippage);
      assert start + Swaps(route, slippage) == before + [last];
    }
  }

  lemma {:induction false} SearchedRoutesChain(pools: seq<Pool>, from: Denom, to: Denom, route: Route)
    requires route in Search(from, to, pools, [])
    ensures Chained(from, route) && DenomAt(from, route, |route|) == to
  {
    GetRoutesIsExact(pools, from, to, route);
    forall i | 0 <= i < |route|
      ensures route[i].tokenIn == DenomAt(from, route, i)
    {
      assert FreshHop(pools, from, route, i);
    }
  }

  lemma {:induction false} BestRouteIsSearched(pools: seq<Pool>, from: Denom, to: Denom, amount: real)
    ensures var best := BestGivenOutput(pools, from, to, amount);
            if Search(from, to, pools, []) == [] then best == [] else best in Search(from, to, pools, [])
  {
    hide Search, Quote, NotAfter;
    var routes := Search(from, to, pools, []);
    if routes != [] {
      var le := (a: Route, b: Route) => NotAfter(Quote(amount, a), Quote(amount, b));
      SortPermutes(routes, le);
      var last := StableSort(routes, le)[|routes| - 1];
      assert last in multiset(StableSort(routes, le));
      assert last in multiset(routes);
    }
  }

  /** Run on an empty account, the borrow actions leave nothing outside the debt denom, at any rates. */
  lemma {:induction false} BorrowActionsEndInDebtDenom(
      pools: seq<Pool>, debt: Debt, collateral: Collateral, markets: seq<MarketInfo>, rate: (nat, real) -> real)
    requires SoundDebt(debt) && SoundCollateral(collateral)
    requires BorrowActions(pools, debt, collateral, markets).Ok?
    ensures OnlyHolds(Interpret(map[], BorrowActions(pools, debt, collateral, markets).value, rate), debt.denom)
  {
    var actions := BorrowActions(pools, debt, collateral, markets).value;
    var first := [actions[0]];
    assert first[..0] == [];
    assert Interpret(map[], [], rate) == map[];
    assert OnlyHolds(Interpret(map[], first, rate), actions[0].denom);
    if !Direct(debt, collateral, markets) {
      var coin := Coin(debt.denom, ToFixed0(RepayAmount(debt, collateral)));
      var cmp := Comparison(pools, coin.denom, coin.amount as real);
      var best := cmp.Best(markets).value;
      BestRouteIsSearched(pools, best.denom, coin.denom, coin.amount as real);
      SearchedRoutesChain(pools, best.denom, coin.denom, cmp.Route(best));
      SwapsCarryEverything(first, best.denom, cmp.Route(best), DEFAULT_SLIPPAGE, map[], rate);
    }
  }

  /** The swap actions turn an account that holds only the collateral won into one that holds only the debt. */
  lemma {:induction false} SwapActionsEndInDebtDenom(
      pools: seq<Pool>, won: Denom, borrowed: Denom, amount: real, slippage: string, account: Account,
      rate: (nat, real) -> real)
    requires OnlyHolds(account, won)
    requires BestGivenOutput(pools, won, borrowed, amount) != []
    ensures var actions := Swaps(BestGivenOutput(pools, won, borrowed, amount), slippage);
            OnlyHolds(Interpret(account, actions, rate), borrowed)
  {
    var route := BestGivenOutput(pools, won, borrowed, amount);
    BestRouteIsSearched(pools, won, borrowed, amount);
    SearchedRoutesChain(pools, won, borrowed, route);
    SwapsCarryEverything([], won, route, slippage, account, rate);
    assert [] + Swaps(route, slippage) == Swaps(route, slippage);
  }

  // ----- The chosen market need not be the cheapest ---------------------------------------------

  lemma {:induction false} OneWayIn(pools: seq<Pool>, p: Pool, from: Denom, amount: real)
    requires p in pools && |p.assets| == 2 && p.assets[0].denom == from != "b" && p.assets[1].denom == "b"
    requires forall q :: q in pools && q.Holds(from) ==> q == p
    ensures BestGivenOutput(pools, from, "b", amount) == [HopThrough(p, from)]
  {
    var direct := [HopThrough(p, from)];
    assert FreshHop(pools, from, direct, 0);
    GetRoutesIsExact(pools, from, "b", direct);
    BestRouteIsSearched(pools, from, "b", amount);
    var best := BestGivenOutput(pools, from, "b", amount);
    GetRoutesIsExact(pools, from, "b", best);
    assert FreshHop(pools, from, best, 0);
    assert best[..0] == [] && CouldClose(pools, from, "b", best, 0);
    assert best == [best[0]];
  }

  lemma {:induction false} DearerOfTwo(cmp: Comparison, cheap: MarketInfo, dear: MarketInfo)
    requires cheap.borrowEnabled && dear.borrowEnabled && cheap.denom != cmp.denom && dear.denom != cmp.denom
    requires cmp.Sufficient(cheap) && cmp.Sufficient(dear)
    requires Positive(cmp.Input(cheap)) && Less(cmp.Input(cheap), cmp.Input(dear))
    ensures cmp.Best([cheap, dear]) == Some(dear)
  {
    hide Comparison.Sufficient, Comparison.Input, Comparison.Best;
    assert dear in cmp.Candidates([cheap, dear]);
    var best := cmp.BestSufficesAndIsCostliest([cheap, dear]);
  }

  lemma {:induction false} OneWayCosts(pools: seq<Pool>, p: Pool, m: MarketInfo, amount: real)
    requires p in pools && |p.assets| == 2
    requires p.assets[0].denom == m.denom != "b" && p.assets[1] == PoolAsset("b", 101.0)
    requires forall q :: q in pools && q.Holds(m.denom) ==> q == p
    requires amount != 0.0
    ensures Comparison(pools, "b", amount).Input(m) == HopCosts(HopThrough(p, m.denom), Finite(amount))
  {
    OneWayIn(pools, p, m.denom, amount);
    OneHopCosts(HopThrough(p, m.denom), amount);
  }

  lemma {:induction false} HundredForHop(h: RouteHop)
    requires h.y1 == 101.0 && h.swapFee == 0.0
    ensures HopCosts(h, Finite(1.0)) == Finite(h.x1 / 100.0)
    ensures h.x1 == 100.0 ==> HopCosts(h, Finite(202.0)) == Finite(-200.0)
    ensures h.x1 > 0.0 ==> HopCosts(h, Finite(101.0)) == Infinite(true)
  {
    hide HopCosts;
    HopCostsReal(h, 1.0);
    HopCostsReal(h, 202.0);
    if h.x1 > 0.0 {
      HopCostsItsReserve(h);
    }
  }

  /** Two markets that can both lend what one unit of debt takes: the one at twice the price is chosen. */
  lemma {:induction false} CostliestMarketIsChosen()
    ensures var pools := [Pool(1, 0.0, [PoolAsset("a", 100.0), PoolAsset("b", 101.0)]),
                          Pool(2, 0.0, [PoolAsset("c", 200.0), PoolAsset("b", 101.0)])];
            var cheap, dear := MarketInfo("a", true, 1000), MarketInfo("c", true, 1000);
            var cmp := Comparison(pools, "b", 1.0);
            && cmp.Sufficient(cheap) && cmp.Sufficient(dear)
            && cmp.Input(cheap) == Finite(1.0) && cmp.Input(dear) == Finite(2.0)
            && cmp.Best([cheap, dear]) == Some(dear)
  {
    hide Comparison.Input, Comparison.Best, HopCosts, Search, Quote;
    var near := Pool(1, 0.0, [PoolAsset("a", 100.0), PoolAsset("b", 101.0)]);
    var far := Pool(2, 0.0, [PoolAsset("c", 200.0), PoolAsset("b", 101.0)]);
    var cheap, dear := MarketInfo("a", true, 1000), MarketInfo("c", true, 1000);
    OneWayCosts([near, far], near, cheap, 1.0);
    OneWayCosts([near, far], far, dear, 1.0);
    HundredForHop(HopThrough(near, "a"));
    HundredForHop(HopThrough(far, "c"));
    DearerOfTwo(Comparison([near, far], "b", 1.0), cheap, dear);
  }

  /** Asked for twice what a pool can give, a market is quoted a negative input and passes for sufficient. */
  lemma {:induction false} OverfullMarketLooksSufficient()
    ensures var pool := Pool(1, 0.0, [PoolAsset("a", 100.0), PoolAsset("b", 101.0)]);
            var cmp, m := Comparison([pool], "b", 202.0), MarketInfo("a", true, 1000);
            cmp.Input(m) == Finite(-200.0) && cmp.Sufficient(m) && SafeBorrow(cmp.Input(m), m.liquidity) == Some(-200)
  {
    hide Comparison.Input, HopCosts, Search, Quote;
    var pool, m := Pool(1, 0.0, [PoolAsset("a", 100.0), PoolAsset("b", 101.0)]), MarketInfo("a", true, 1000);
    OneWayCosts([pool], pool, m, 202.0);
    HundredForHop(HopThrough(pool, "a"));
  }

  /** Asked for all that its pool holds, a market is quoted an infinite input and is insufficient. */
  lemma {:induction false} EmptiedMarketIsInsufficient(liquidity: nat)
    ensures var pool := Pool(1, 0.0, [PoolAsset("a", 100.0), PoolAsset("b", 101.0)]);
            var cmp, m := Comparison([pool], "b", 101.0), MarketInfo("a", true, liquidity);
            cmp.Input(m) == Infinite(true) && !cmp.Sufficient(m)
  {
    hide Comparison.Input, HopCosts, Search, Quote;
    var pool, m := Pool(1, 0.0, [PoolAsset("a", 100.0), PoolAsset("b", 101.0)]), MarketInfo("a", true, liquidity);
    OneWayCosts([pool], pool, m, 101.0);
    HundredForHop(HopThrough(pool, "a"));
  }

  lemma {:induction false} HalfFeeHop(h: RouteHop)
    requires h.x1 == 100.0 && h.y1 == 101.0 && h.swapFee == 0.5
    ensures HopCosts(h, Finite(400.0)) == Finite(400.0 / -299.0 * 100.0 + 200.0)
  {
    hide HopCosts;
    HopCostsReal(h, 400.0);
  }

  /** With a fee of one half and four times what the pool can give, the quote is positive again and far too small. */
  lemma {:induction false} OverfullMarketCanLendLittle()
    ensures var pool := Pool(1, 0.5, [PoolAsset("a", 100.0), PoolAsset("b", 101.0)]);
            var cmp, m := Comparison([pool], "b", 400.0), MarketInfo("a", true, 1000);
            && cmp.Input(m).Finite? && 66.0 < cmp.Input(m).value < 66.5
            && cmp.Sufficient(m) && SafeBorrow(cmp.Input(m), m.liquidity) == Some(66)
  {
    hide Comparison.Input, HopCosts, Search, Quote;
    var pool, m := Pool(1, 0.5, [PoolAsset("a", 100.0), PoolAsset("b", 101.0)]), MarketInfo("a", true, 1000);
    OneWayCosts([pool], pool, m, 400.0);
    HalfFeeHop(HopThrough(pool, "a"));
  }

  // ----- When borrowing through another market works --------------------------------------------

  /** A market from which no route leads to the debt costs nothing, and so passes for sufficient. */
  lemma {:induction false} UnroutableLooksFree(cmp: Comparison, m: MarketInfo)
    requires cmp.Route(m) == []
    ensures cmp.Input(m) == Finite(0.0)
    ensures cmp.Live(m) ==> cmp.Sufficient(m)
  {
    hide BestGivenOutput;
    assert cmp.Input(m) == Finite(0.0);
    assert m.liquidity > 0 ==> Buffered(m.liquidity) > 0.0;
  }

  /**
   * The actions are generated exactly when there is a candidate and the costless unroutable ones cannot
   * win: some routable candidate is sufficient, or every candidate is routable.
   */
  lemma {:induction false} SwapBorrowSucceedsIff(pools: seq<Pool>, debtCoin: Coin, markets: seq<MarketInfo>)
    requires var cmp := Comparison(pools, debtCoin.denom, debtCoin.amount as real);
             forall m :: m in cmp.Candidates(markets)
               ==> cmp.Live(m) && (cmp.Route(m) != [] ==> Positive(cmp.Input(m)))
    ensures var cmp := Comparison(pools, debtCoin.denom, debtCoin.amount as real);
            SwapBorrowActions(pools, debtCoin, markets).Ok?
            <==> && cmp.Candidates(markets) != []
                 && (|| (exists m :: m in cmp.Candidates(markets) && cmp.Route(m) != [] && cmp.Sufficient(m))
                     || (forall m :: m in cmp.Candidates(markets) ==> cmp.Route(m) != []))
  {
    var cmp := Comparison(pools, debtCoin.denom, debtCoin.amount as real);
    ChosenIsRoutableIff(cmp, markets);
  }

  lemma {:induction false} ChosenIsRoutableIff(cmp: Comparison, markets: seq<MarketInfo>)
    requires forall m :: m in cmp.Candidates(markets)
               ==> cmp.Live(m) && (cmp.Route(m) != [] ==> Positive(cmp.Input(m)))
    ensures cmp.Best(markets).Some? <==> cmp.Candidates(markets) != []
    ensures cmp.Best(markets).Some?
            ==> (cmp.Route(cmp.Best(markets).value) != []
                 <==> || (exists m :: m in cmp.Candidates(markets) && cmp.Route(m) != [] && cmp.Sufficient(m))
                      || (forall m :: m in cmp.Candidates(markets) ==> cmp.Route(m) != []))
  {
    BestIfCandidates(cmp, markets);
    if cmp.Candidates(markets) != [] {
      hide Comparison.Best, Comparison.Candidates, Comparison.Route, Comparison.Input, Comparison.Sufficient,
           Comparison.Live, Less, Positive;
      forall m | m in cmp.Candidates(markets) && cmp.Route(m) == []
        ensures cmp.Input(m) == Finite(0.0) && cmp.Sufficient(m)
      {
        UnroutableLooksFree(cmp, m);
      }
      ChosenIsCandidate(cmp, markets);
      if m :| m in cmp.Candidates(markets) && cmp.Sufficient(m) {
        var best := cmp.BestSufficesAndIsCostliest(markets);
        forall m | m in cmp.Candidates(markets) && cmp.Sufficient(m) && cmp.Route(m) != []
          ensures cmp.Input(best) != Finite(0.0)
        {
          PositiveIsAboveZero(cmp.Input(m), cmp.Input(best));
        }
      }
    }
  }

  lemma {:induction false} PositiveIsAboveZero(a: Num, b: Num)
    requires Positive(a) && AtMost(a, b)
    ensures b != Finite(0.0)
  {
  }

  lemma {:induction false} BestIfCandidates(cmp: Comparison, markets: seq<MarketInfo>)
    ensures cmp.Best(markets).Some? <==> cmp.Candidates(markets) != []
  {
  }

  lemma {:induction false} StartsSomewhere(pools: seq<Pool>, from: Denom, to: Denom, r: Route)
    requires IsRoute(pools, from, to, r)
    ensures exists p :: p in pools && p.Holds(from)
  {
    assert FreshHop(pools, from, r, 0);
  }

  lemma {:induction false} NoWayIn(pools: seq<Pool>, from: Denom, to: Denom, amount: real)
    requires forall p :: p in pools ==> !p.Holds(from)
    ensures BestGivenOutput(pools, from, to, amount) == []
  {
    hide Search, BestGivenOutput;
    BestRouteIsSearched(pools, from, to, amount);
    var best := BestGivenOutput(pools, from, to, amount);
    GetRoutesIsExact(pools, from, to, best);
    if best in Search(from, to, pools, []) {
      StartsSomewhere(pools, from, to, best);
    }
  }

  lemma {:induction false} FiftyForHop(h: RouteHop)
    requires h.x1 == 100.0 && h.y1 == 101.0 && h.swapFee == 0.0
    ensures HopCosts(h, Finite(50.0)) == Finite(5000.0 / 51.0)
  {
    hide HopCosts;
    HopCostsReal(h, 50.0);
  }

  lemma {:induction false} ShortAgainstUnroutable(cmp: Comparison, unroutable: MarketInfo, short: MarketInfo)
    requires cmp.Route(unroutable) == [] && cmp.Route(short) != []
    requires cmp.Live(unroutable) && cmp.Live(short) && !cmp.Sufficient(short) && Positive(cmp.Input(short))
    requires unroutable.borrowEnabled && unroutable.denom != cmp.denom
    requires short.borrowEnabled && short.denom != cmp.denom
    ensures cmp.Best([unroutable, short]).Some? && cmp.Route(cmp.Best([unroutable, short]).value) == []
  {
    hide Comparison.Route, Comparison.Input, Comparison.Sufficient, Comparison.Live, Comparison.Best;
    var markets := [unroutable, short];
    assert unroutable in cmp.Candidates(markets);
    assert forall m :: m in cmp.Candidates(markets) ==> m == unroutable || m == short;
    ChosenIsRoutableIff(cmp, markets);
  }

  /** The market without a pool is chosen over one that has a route but is short: no actions at all. */
  lemma {:induction false} UnroutableMarketWins()
    ensures var pool := Pool(1, 0.0, [PoolAsset("a", 100.0), PoolAsset("b", 101.0)]);
            SwapBorrowActions([pool], Coin("b", 50), [MarketInfo("z", true, 1), MarketInfo("a", true, 1)])
            == Err(NO_ROUTE_FOR_SWAP)
  {
    var pool := Pool(1, 0.0, [PoolAsset("a", 100.0), PoolAsset("b", 101.0)]);
    var cmp, z, a := Comparison([pool], "b", 50.0), MarketInfo("z", true, 1), MarketInfo("a", true, 1);
    assert cmp.Route(z) == [] by { NoWayIn([pool], "z", "b", 50.0); }
    assert cmp.Route(a) != [] by { OneWayIn([pool], pool, "a", 50.0); }
    hide Comparison.Route, Comparison.Best, Comparison.Input, HopCosts, Search, Quote, BestGivenOutput;
    OneWayCosts([pool], pool, a, 50.0);
    FiftyForHop(HopThrough(pool, "a"));
    UnroutableLooksFree(cmp, z);
    ShortAgainstUnroutable(cmp, z, a);
  }
}
