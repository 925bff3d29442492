/** Constant-product pricing of hops and routes (math.ts and the two folds of amm_router.ts). */
module Pricing {
  import opened Algebra
  import opened Numbers
  import opened Pools

  // ----- As computed ----------------------------------------------------------------------------

  function CalculateOutputXYKPool(x1: Num, y1: Num, xChange: Num): Num {
    Times(Divide(xChange, Plus(x1, xChange)), y1)
  }

  function CalculateRequiredInputXYKPool(x1: Num, y1: Num, yChange: Num): Num {
    Times(Divide(yChange, Minus(y1, yChange)), x1)
  }

  function HopReturns(h: RouteHop, amount: Num): Num {
    var beforeFees := CalculateOutputXYKPool(Finite(h.x1), Finite(h.y1), amount);
    Minus(beforeFees, Times(beforeFees, Finite(h.swapFee)))
  }

  function HopCosts(h: RouteHop, amount: Num): Num {
    Plus(CalculateRequiredInputXYKPool(Finite(h.x1), Finite(h.y1), amount), Times(amount, Finite(h.swapFee)))
  }

  function ReturnFold(amount: real, route: Route): Num {
    if route == [] then Finite(amount)
    else HopReturns(route[|route| - 1], ReturnFold(amount, route[..|route| - 1]))
  }

  function QuoteFold(amount: real, route: Route): Num {
    if route == [] then Finite(amount)
    else HopCosts(route[|route| - 1], QuoteFold(amount, route[..|route| - 1]))
  }

  /** getOutput: an empty route or a zero amount is priced at zero. */
  function Returned(amount: real, route: Route): Num {
    if amount == 0.0 || route == [] then Finite(0.0) else ReturnFold(amount, route)
  }

  /** getRequiredInput: likewise. */
  function Quote(amount: real, route: Route): Num {
    if amount == 0.0 || route == [] then Finite(0.0) else QuoteFold(amount, route)
  }

  method GetOutput(tokenInAmount: real, route: Route) returns (amountAfterFees: Num)
    ensures amountAfterFees == Returned(tokenInAmount, route)
    ensures tokenInAmount == 0.0 || route == [] ==> amountAfterFees == Finite(0.0)
  {
    amountAfterFees := Finite(0.0);
    if tokenInAmount == 0.0 {
      return;
    }
    var running := Finite(tokenInAmount);
    for i := 0 to |route|
      invariant running == ReturnFold(tokenInAmount, route[..i])
      invariant amountAfterFees == if i == 0 then Finite(0.0) else running
    {
      assert route[..i + 1][..i] == route[..i];
      var amountBeforeFees := CalculateOutputXYKPool(Finite(route[i].x1), Finite(route[i].y1), running);
      amountAfterFees := Minus(amountBeforeFees, Times(amountBeforeFees, Finite(route[i].swapFee)));
      running := amountAfterFees;
    }
    assert route[..|route|] == route;
  }

  method GetRequiredInput(tokenOutRequired: real, route: Route) returns (amountAfterFees: Num)
    ensures amountAfterFees == Quote(tokenOutRequired, route)
    ensures tokenOutRequired == 0.0 || route == [] ==> amountAfterFees == Finite(0.0)
  {
    amountAfterFees := Finite(0.0);
    if tokenOutRequired == 0.0 {
      return;
    }
    var running := Finite(tokenOutRequired);
    for i := 0 to |route|
      invariant running == QuoteFold(tokenOutRequired, route[..i])
      invariant amountAfterFees == if i == 0 then Finite(0.0) else running
    {
      assert route[..i + 1][..i] == route[..i];
      var amountInBeforeFees := CalculateRequiredInputXYKPool(Finite(route[i].x1), Finite(route[i].y1), running);
      amountAfterFees := Plus(amountInBeforeFees, Times(running, Finite(route[i].swapFee)));
      running := amountAfterFees;
    }
    assert route[..|route|] == route;
  }

  // ----- Where nothing is divided by zero -------------------------------------------------------

  function HopOutput(h: RouteHop, amount: real): real
    requires h.x1 + amount != 0.0
  {
    var beforeFees := amount / (h.x1 + amount) * h.y1;
    beforeFees - beforeFees * h.swapFee
  }

  function HopInput(h: RouteHop, amount: real): real
    requires h.y1 - amount != 0.0
  {
    amount / (h.y1 - amount) * h.x1 + amount * h.swapFee
  }

  lemma {:induction false} HopReturnsReal(h: RouteHop, amount: real)
    requires h.x1 + amount != 0.0
    ensures HopReturns(h, Finite(amount)) == Finite(HopOutput(h, amount))
  {
  }

  lemma {:induction false} HopCostsReal(h: RouteHop, amount: real)
    requires h.y1 - amount != 0.0
    ensures HopCosts(h, Finite(amount)) == Finite(HopInput(h, amount))
  {
  }

  // ----- Facts about one hop --------------------------------------------------------------------

  /** The part of the output reserve that sellers can reach once the fee is taken. */
  function Net(h: RouteHop): real {
    h.y1 - h.y1 * h.swapFee
  }

  lemma {:induction false} NetRange(h: RouteHop)
    requires SoundHop(h)
    ensures 0.0 < Net(h) <= h.y1
  {
    TimesKeepsOrder(h.swapFee, 1.0, h.y1);
    TimesKeepsOrder(0.0, h.swapFee, h.y1);
  }

  /** A hop pays along the constant-product curve, less the fee. */
  lemma {:induction false} HopPays(h: RouteHop, a: real)
    requires SoundHop(h) && a >= 0.0
    ensures Pays(HopOutput(h, a), a, h.x1, Net(h))
    ensures HopOutput(h, a) * (h.x1 + a) == a * (h.y1 * (1.0 - h.swapFee))
  {
    QuotientPays(a, h.x1, h.y1, h.swapFee);
    assert h.y1 * (1.0 - h.swapFee) == h.y1 - h.y1 * h.swapFee;
  }

  lemma {:induction false} HopQuotes(h: RouteHop, b: real)
    requires SoundHop(h) && 0.0 < b < h.y1
    ensures HopInput(h, b) > 0.0 && Quotes(HopInput(h, b), b, h.x1, h.y1, h.swapFee)
    ensures HopInput(h, b) * (h.y1 - b) == b * h.x1 + b * h.swapFee * (h.y1 - b)
  {
    QuotientQuotes(b, h.x1, h.y1, h.swapFee);
  }

  lemma {:induction false} HopOutputBounds(h: RouteHop, a: real)
    requires SoundHop(h) && a > 0.0
    ensures 0.0 < HopOutput(h, a) < Net(h) <= h.y1
  {
    hide HopOutput, Net, Pays;
    NetRange(h);
    HopPays(h, a);
    PaysWithin(HopOutput(h, a), a, h.x1, Net(h));
  }

  lemma {:induction false} HopOutputOfNothing(h: RouteHop)
    requires SoundHop(h)
    ensures HopOutput(h, 0.0) == 0.0
  {
  }

  lemma {:induction false} HopOutputIncreases(h: RouteHop, a: real, b: real)
    requires SoundHop(h) && 0.0 <= a < b
    ensures HopOutput(h, a) < HopOutput(h, b)
  {
    hide HopOutput, Net, Pays;
    HopPays(h, a);
    HopPays(h, b);
    HopOutputBounds(h, b);
    if a > 0.0 {
      HopOutputBounds(h, a);
    } else {
      HopOutputOfNothing(h);
    }
    PaysMore(HopOutput(h, a), a, HopOutput(h, b), b, h.x1, Net(h));
  }

  lemma {:induction false} HopOutputSplits(h: RouteHop, a: real, b: real)
    requires SoundHop(h) && a > 0.0 && b > 0.0
    ensures HopOutput(h, a + b) < HopOutput(h, a) + HopOutput(h, b)
  {
    hide HopOutput, Net, Pays;
    HopPays(h, a);
    HopPays(h, b);
    HopPays(h, a + b);
    HopOutputIncreases(h, a, a + b);
    HopOutputIncreases(h, b, a + b);
    SplitPaysMore(HopOutput(h, a), a, HopOutput(h, b), b, HopOutput(h, a + b), h.x1, Net(h));
  }

  lemma {:induction false} NetWithoutFee(h: RouteHop)
    requires h.swapFee == 0.0
    ensures Net(h) == h.y1
  {
  }

  /** Without a fee, the quoted input buys exactly the amount asked for, and back. */
  lemma {:induction false} FeeFreeHopInverts(h: RouteHop, a: real)
    requires SoundHop(h) && h.swapFee == 0.0 && a > 0.0
    ensures HopOutput(h, a) < h.y1 && HopInput(h, HopOutput(h, a)) == a
  {
    hide HopOutput, HopInput, Net, Pays, Quotes;
    HopOutputBounds(h, a);
    NetWithoutFee(h);
    HopPays(h, a);
    var out := HopOutput(h, a);
    HopQuotes(h, out);
    QuoteInvertsPayment(out, a, HopInput(h, out), h.x1, h.y1);
  }

  lemma {:induction false} FeeFreeHopBuys(h: RouteHop, b: real)
    requires SoundHop(h) && h.swapFee == 0.0 && 0.0 < b < h.y1
    ensures HopInput(h, b) > 0.0 && HopOutput(h, HopInput(h, b)) == b
  {
    hide HopOutput, HopInput, Net, Pays, Quotes;
    HopQuotes(h, b);
    NetWithoutFee(h);
    HopPays(h, HopInput(h, b));
    PaymentInvertsQuote(b, HopInput(h, b), HopOutput(h, HopInput(h, b)), h.x1, h.y1);
  }

  /** The pool is deep enough for the quote for `b` to cover the fee as the swap takes it. */
  predicate Covers(h: RouteHop, b: real) {
    h.swapFee == 0.0 || h.x1 * h.y1 <= (Net(h) - b) * (h.y1 - b)
  }

  /**
   * With a fee, the quote adds the fee on the output while the swap takes it from the output.
   * The quote is enough exactly when the pool meets a bound that a caller can test beforehand.
   */
  lemma {:induction false} QuoteSufficesIff(h: RouteHop, b: real)
    requires SoundHop(h) && 0.0 < b < h.y1
    ensures HopInput(h, b) > 0.0
    ensures HopOutput(h, HopInput(h, b)) >= b <==> Covers(h, b)
  {
    hide HopOutput, HopInput, Pays, Quotes;
    HopQuotes(h, b);
    var a := HopInput(h, b);
    HopPays(h, a);
    QuoteSuffices(HopOutput(h, a), a, b, h.x1, h.y1, h.swapFee, Net(h));
  }

  /** A fee of one half and reserves of 100: the input quoted for 10 buys less than 10. */
  lemma {:induction false} QuoteCanFallShort()
    ensures var h := RouteHop(1, "a", "b", 0.5, 100.0, 100.0);
            HopOutput(h, HopInput(h, 10.0)) < 10.0
  {
    QuoteSufficesIff(RouteHop(1, "a", "b", 0.5, 100.0, 100.0), 10.0);
  }

  // ----- Whole routes ---------------------------------------------------------------------------

  /** `amount` carried through every hop of `route` in order. */
  function Through(amount: real, route: Route): (out: real)
    requires SoundRoute(route) && amount >= 0.0
    ensures out >= 0.0 && (amount > 0.0 ==> out > 0.0)
  {
    if route == [] then amount
    else
      var h := route[|route| - 1];
      var before := Through(amount, route[..|route| - 1]);
      if before > 0.0 then HopOutputBounds(h, before); HopOutput(h, before)
      else HopOutput(h, before)
  }

  function Output(amount: real, route: Route): real
    requires SoundRoute(route) && amount >= 0.0
  {
    if amount == 0.0 || route == [] then 0.0 else Through(amount, route)
  }

  /** Over sound pools getOutput always yields a number. */
  lemma {:induction false} ReturnedIsOutput(amount: real, route: Route)
    requires SoundRoute(route) && amount >= 0.0
    ensures Returned(amount, route) == Finite(Output(amount, route))
  {
    if amount != 0.0 {
      FoldIsThrough(amount, route);
    }
  }

  lemma {:induction false} FoldIsThrough(amount: real, route: Route)
    requires SoundRoute(route) && amount > 0.0
    ensures ReturnFold(amount, route) == Finite(Through(amount, route))
  {
    if route != [] {
      hide HopReturns, HopOutput;
      FoldIsThrough(amount, route[..|route| - 1]);
      assert SoundHop(route[|route| - 1]);
      HopReturnsReal(route[|route| - 1], Through(amount, route[..|route| - 1]));
    }
  }

  /** No hop, taken in list order, is asked for exactly its whole reserve. */
  predicate Quotable(amount: real, route: Route)
    decreases |route|, 0
  {
    route == []
    || (Quotable(amount, route[..|route| - 1])
        && route[|route| - 1].y1 != RequiredThrough(amount, route[..|route| - 1]))
  }

  /** The amount folded back through the hops in list order. */
  function RequiredThrough(amount: real, route: Route): real
    requires Quotable(amount, route)
    decreases |route|, 1
  {
    if route == [] then amount
    else HopInput(route[|route| - 1], RequiredThrough(amount, route[..|route| - 1]))
  }

  function RequiredInput(amount: real, route: Route): real
    requires Quotable(amount, route)
  {
    if amount == 0.0 || route == [] then 0.0 else RequiredThrough(amount, route)
  }

  lemma {:induction false} QuoteIsRequired(amount: real, route: Route)
    requires Quotable(amount, route)
    ensures QuoteFold(amount, route) == Finite(RequiredThrough(amount, route))
    ensures Quote(amount, route) == Finite(RequiredInput(amount, route))
  {
    if route != [] {
      hide HopCosts, HopInput;
      QuoteIsRequired(amount, route[..|route| - 1]);
      HopCostsReal(route[|route| - 1], RequiredThrough(amount, route[..|route| - 1]));
    }
  }

  // ----- What a quote can be --------------------------------------------------------------------

  /** Every hop, in list order, is asked for less than its reserve. */
  predicate Fills(amount: real, route: Route) {
    forall i :: 0 <= i < |route| ==> Less(QuoteFold(amount, route[..i]), Finite(route[i].y1))
  }

  /** Asked for less than its reserve, or for so much more that the fee on the excess outweighs the input reserve. */
  predicate Bears(h: RouteHop, asked: Num) {
    asked.Finite? && (asked.value < h.y1 || h.swapFee * (asked.value - h.y1) > h.x1)
  }

  predicate AllBear(amount: real, route: Route) {
    forall i :: 0 <= i < |route| ==> Bears(route[i], QuoteFold(amount, route[..i]))
  }

  /** No hop before the last is asked for exactly its reserve. */
  predicate EmptiesNone(amount: real, route: Route) {
    forall i :: 0 <= i < |route| - 1 ==> QuoteFold(amount, route[..i]) != Finite(route[i].y1)
  }

  /** The last hop is. */
  predicate EmptiesLast(amount: real, route: Route) {
    route != [] && QuoteFold(amount, route[..|route| - 1]) == Finite(route[|route| - 1].y1)
  }

  lemma {:induction false} FillsSnoc(amount: real, front: Route, h: RouteHop)
    ensures Fills(amount, front + [h]) <==> Fills(amount, front) && Less(QuoteFold(amount, front), Finite(h.y1))
    ensures AllBear(amount, front + [h]) <==> AllBear(amount, front) && Bears(h, QuoteFold(amount, front))
    ensures QuoteFold(amount, front + [h]) == HopCosts(h, QuoteFold(amount, front))
  {
    hide HopCosts, Bears;
    assert (front + [h])[..|front|] == front;
    assert forall i :: 0 <= i < |front| ==> (front + [h])[..i] == front[..i];
  }

  /** Below the reserve a positive amount is quoted positive; the reserve itself has no finite quote. */
  lemma {:induction false} HopCostsCases(h: RouteHop, amount: Num)
    requires SoundHop(h)
    ensures HopCosts(h, amount).Finite? && Positive(HopCosts(h, amount)) <==> Positive(amount) && Bears(h, amount)
    ensures HopCosts(h, amount).Finite? <==> amount.Finite? && amount.value != h.y1
    ensures HopCosts(h, amount).NotANumber? <==> !amount.Finite?
  {
    hide HopCosts;
    if !amount.Finite? {
      HopCostsNoNumber(h, amount);
    } else if amount.value == h.y1 {
      HopCostsItsReserve(h);
    } else {
      HopCostsReal(h, amount.value);
      QuoteSign(amount.value, h.x1, h.y1, h.swapFee);
    }
  }

  lemma {:induction false} HopCostsNoNumber(h: RouteHop, amount: Num)
    requires !amount.Finite?
    ensures HopCosts(h, amount) == NotANumber
  {
  }

  lemma {:induction false} HopCostsItsReserve(h: RouteHop)
    requires SoundHop(h)
    ensures HopCosts(h, Finite(h.y1)) == Infinite(true)
  {
  }

  /** getRequiredInput yields a number exactly when no hop before the last is asked for its whole reserve. */
  lemma {:induction false} QuoteIsNumberIff(amount: real, route: Route)
    requires SoundRoute(route)
    ensures amount != 0.0 ==> (!Quote(amount, route).NotANumber? <==> EmptiesNone(amount, route))
  {
    if route != [] {
      FoldIsNumberIff(amount, route);
    }
  }

  lemma {:induction false} FoldIsNumberIff(amount: real, route: Route)
    requires SoundRoute(route)
    ensures !QuoteFold(amount, route).NotANumber? <==> EmptiesNone(amount, route)
    ensures QuoteFold(amount, route).Finite?
            <==> EmptiesNone(amount, route) && !EmptiesLast(amount, route)
  {
    hide QuoteFold, HopCosts, Fills, EmptiesNone, EmptiesLast;
    if route == [] {
      NothingEmptied(amount);
    } else {
      var front, h := route[..|route| - 1], route[|route| - 1];
      assert route == front + [h];
      FoldIsNumberIff(amount, front);
      EmptiesSnoc(amount, front, h);
      FillsSnoc(amount, front, h);
      HopCostsCases(h, QuoteFold(amount, front));
    }
  }

  lemma {:induction false} NothingEmptied(amount: real)
    ensures QuoteFold(amount, []) == Finite(amount) && EmptiesNone(amount, []) && !EmptiesLast(amount, [])
  {
  }

  lemma {:induction false} EmptiesSnoc(amount: real, front: Route, h: RouteHop)
    ensures EmptiesNone(amount, front + [h]) <==> EmptiesNone(amount, front) && !EmptiesLast(amount, front)
    ensures EmptiesLast(amount, front + [h]) <==> QuoteFold(amount, front) == Finite(h.y1)
  {
    hide QuoteFold;
    assert (front + [h])[..|front|] == front;
    assert forall i :: 0 <= i < |front| ==> (front + [h])[..i] == front[..i];
  }

  /**
   * A quote is a positive number exactly when every hop, in list order, is asked for less than its reserve
   * or for so much more that the fee on the excess outweighs its input reserve.
   */
  lemma {:induction false} QuoteIsPositiveIff(amount: real, route: Route)
    requires SoundRoute(route) && amount > 0.0 && route != []
    ensures Quote(amount, route).Finite? && Positive(Quote(amount, route)) <==> AllBear(amount, route)
    ensures Fills(amount, route) ==> AllBear(amount, route)
    ensures FeeFree(route) ==> (AllBear(amount, route) <==> Fills(amount, route))
  {
    FoldIsPositiveIff(amount, route);
  }

  lemma {:induction false} FoldIsPositiveIff(amount: real, route: Route)
    requires SoundRoute(route) && amount > 0.0
    ensures QuoteFold(amount, route).Finite? && Positive(QuoteFold(amount, route)) <==> AllBear(amount, route)
    ensures Fills(amount, route) ==> AllBear(amount, route)
    ensures FeeFree(route) ==> (AllBear(amount, route) <==> Fills(amount, route))
  {
    hide QuoteFold, HopCosts, Fills, AllBear, Bears;
    if route == [] {
      NothingBorne(amount);
    } else {
      var front, h := route[..|route| - 1], route[|route| - 1];
      assert route == front + [h];
      FoldIsPositiveIff(amount, front);
      FillsSnoc(amount, front, h);
      HopCostsCases(h, QuoteFold(amount, front));
      BearsCases(h, QuoteFold(amount, front));
    }
  }

  lemma {:induction false} NothingBorne(amount: real)
    ensures QuoteFold(amount, []) == Finite(amount) && AllBear(amount, []) && Fills(amount, [])
  {
  }

  lemma {:induction false} BearsCases(h: RouteHop, asked: Num)
    requires SoundHop(h)
    ensures Positive(asked) && Less(asked, Finite(h.y1)) ==> Bears(h, asked)
    ensures h.swapFee == 0.0 && Bears(h, asked) ==> Less(asked, Finite(h.y1))
  {
  }

  /** Selling more never pays less or the same. */
  lemma {:induction false} OutputIncreases(route: Route, a: real, b: real)
    requires SoundRoute(route) && route != [] && 0.0 <= a < b
    ensures Output(a, route) < Output(b, route)
  {
    ThroughIncreases(route, a, b);
  }

  lemma {:induction false} ThroughIncreases(route: Route, a: real, b: real)
    requires SoundRoute(route) && 0.0 <= a < b
    ensures Through(a, route) < Through(b, route)
  {
    if route != [] {
      var front := route[..|route| - 1];
      ThroughIncreases(front, a, b);
      HopOutputIncreases(route[|route| - 1], Through(a, front), Through(b, front));
    }
  }

  /** A route never pays out the whole reserve of its last pool. */
  lemma {:induction false} OutputBelowLastReserve(route: Route, a: real)
    requires SoundRoute(route) && route != [] && a >= 0.0
    ensures 0.0 <= Output(a, route) < route[|route| - 1].y1
    ensures a > 0.0 ==> Output(a, route) > 0.0
  {
    if a > 0.0 {
      HopOutputBounds(route[|route| - 1], Through(a, route[..|route| - 1]));
    } else {
      assert SoundHop(route[|route| - 1]);
    }
  }

  /** Splitting a trade in two, each priced on untouched pools, never yields less in total. */
  lemma {:induction false} OutputSplits(route: Route, a: real, b: real)
    requires SoundRoute(route) && a >= 0.0 && b >= 0.0
    ensures Output(a + b, route) <= Output(a, route) + Output(b, route)
  {
    if a > 0.0 && b > 0.0 {
      ThroughSplits(route, a, b);
    }
  }

  lemma {:induction false} ThroughSplits(route: Route, a: real, b: real)
    requires SoundRoute(route) && a > 0.0 && b > 0.0
    ensures Through(a + b, route) <= Through(a, route) + Through(b, route)
  {
    if route != [] {
      var front, h := route[..|route| - 1], route[|route| - 1];
      ThroughSplits(front, a, b);
      var whole, u, v := Through(a + b, front), Through(a, front), Through(b, front);
      HopOutputSplits(h, u, v);
      if whole < u + v {
        HopOutputIncreases(h, whole, u + v);
      }
    }
  }

  // ----- The quote against the swap -------------------------------------------------------------

  function Reverse(route: Route): (r: Route)
    ensures |r| == |route|
    ensures forall i :: 0 <= i < |r| ==> r[i] == route[|route| - 1 - i]
    ensures forall h :: h in r <==> h in route
  {
    if route == [] then [] else [route[|route| - 1]] + Reverse(route[..|route| - 1])
  }

  predicate FeeFree(route: Route) {
    forall h :: h in route ==> h.swapFee == 0.0
  }

  /** Folding from the first hop on is the same as pricing the first hop and folding the rest. */
  lemma {:induction false} RequiredFromFirst(amount: real, h: RouteHop, rest: Route)
    requires h.y1 != amount
    ensures Quotable(amount, [h] + rest) <==> Quotable(HopInput(h, amount), rest)
    ensures Quotable(amount, [h] + rest)
            ==> RequiredThrough(amount, [h] + rest) == RequiredThrough(HopInput(h, amount), rest)
  {
    var all := [h] + rest;
    if rest == [] {
      assert all[..0] == [] && all == [h];
      assert Quotable(amount, []) && RequiredThrough(amount, []) == amount;
    } else {
      RequiredFromFirst(amount, h, rest[..|rest| - 1]);
      assert all[..|all| - 1] == [h] + rest[..|rest| - 1];
    }
  }

  /** Without fees, quoting the output over the reversed route gives back the input. */
  lemma {:induction false} QuoteUndoesOutput(route: Route, a: real)
    requires SoundRoute(route) && FeeFree(route) && route != [] && a > 0.0
    ensures Quotable(Output(a, route), Reverse(route))
    ensures RequiredInput(Output(a, route), Reverse(route)) == a
    ensures Quote(Output(a, route), Reverse(route)) == Finite(a)
  {
    QuoteUndoesThrough(route, a);
    QuoteIsRequired(Output(a, route), Reverse(route));
  }

  lemma {:induction false} QuoteUndoesThrough(route: Route, a: real)
    requires SoundRoute(route) && FeeFree(route) && a > 0.0
    ensures Quotable(Through(a, route), Reverse(route))
    ensures RequiredThrough(Through(a, route), Reverse(route)) == a
  {
    if route != [] {
      var front, h := route[..|route| - 1], route[|route| - 1];
      QuoteUndoesThrough(front, a);
      FeeFreeHopInverts(h, Through(a, front));
      RequiredFromFirst(Through(a, route), h, Reverse(front));
    }
  }

  /** Going back from the last hop, every hop is asked for a positive amount below its reserve. */
  predicate Fillable(amount: real, route: Route)
    requires SoundRoute(route)
    decreases |route|
  {
    route == []
    || (var h := route[|route| - 1];
        0.0 < amount < h.y1 && Fillable(HopInput(h, amount), route[..|route| - 1]))
  }

  /** Without fees, what the reversed quote asks for buys exactly the amount wanted. */
  lemma {:induction false} OutputUndoesQuote(route: Route, b: real)
    requires SoundRoute(route) && FeeFree(route) && route != [] && Fillable(b, route)
    ensures Quotable(b, Reverse(route)) && RequiredInput(b, Reverse(route)) > 0.0
    ensures Output(RequiredInput(b, Reverse(route)), route) == b
    ensures Quote(b, Reverse(route)) == Finite(RequiredInput(b, Reverse(route)))
  {
    ThroughUndoesQuote(route, b);
    QuoteIsRequired(b, Reverse(route));
  }

  lemma {:induction false} ThroughUndoesQuote(route: Route, b: real)
    requires SoundRoute(route) && FeeFree(route) && Fillable(b, route) && b > 0.0
    ensures Quotable(b, Reverse(route)) && RequiredThrough(b, Reverse(route)) > 0.0
    ensures Through(RequiredThrough(b, Reverse(route)), route) == b
  {
    if route != [] {
      var front, h := route[..|route| - 1], route[|route| - 1];
      FeeFreeHopBuys(h, b);
      ThroughUndoesQuote(front, HopInput(h, b));
      RequiredFromFirst(b, h, Reverse(front));
    }
  }

  /** Going back from the last hop, every hop covers the amount it is asked for. */
  predicate AllCover(amount: real, route: Route)
    requires SoundRoute(route)
    decreases |route|
  {
    route == []
    || (var h := route[|route| - 1];
        0.0 < amount < h.y1 && Covers(h, amount) && AllCover(HopInput(h, amount), route[..|route| - 1]))
  }

  predicate NoneCovers(amount: real, route: Route)
    requires SoundRoute(route)
    decreases |route|
  {
    route == []
    || (var h := route[|route| - 1];
        0.0 < amount < h.y1 && !Covers(h, amount) && NoneCovers(HopInput(h, amount), route[..|route| - 1]))
  }

  /** With fees, the reversed quote buys the amount wanted if every hop covers what it is asked for. */
  lemma {:induction false} RouteQuoteSuffices(route: Route, b: real)
    requires SoundRoute(route) && AllCover(b, route) && b > 0.0
    ensures Quotable(b, Reverse(route)) && RequiredThrough(b, Reverse(route)) > 0.0
    ensures Through(RequiredThrough(b, Reverse(route)), route) >= b
  {
    if route != [] {
      hide HopInput, HopOutput, Covers;
      var front, h := route[..|route| - 1], route[|route| - 1];
      var a := HopInput(h, b);
      QuoteSufficesIff(h, b);
      RouteQuoteSuffices(front, a);
      RequiredFromFirst(b, h, Reverse(front));
      var bought := Through(RequiredThrough(a, Reverse(front)), front);
      if a < bought {
        HopOutputIncreases(h, a, bought);
      }
    }
  }

  /** It falls short if no hop does. */
  lemma {:induction false} RouteQuoteFallsShort(route: Route, b: real)
    requires SoundRoute(route) && NoneCovers(b, route) && b > 0.0
    ensures Quotable(b, Reverse(route)) && RequiredThrough(b, Reverse(route)) > 0.0
    ensures Through(RequiredThrough(b, Reverse(route)), route) <= b
    ensures route != [] ==> Through(RequiredThrough(b, Reverse(route)), route) < b
  {
    if route != [] {
      hide HopInput, HopOutput, Covers;
      var front, h := route[..|route| - 1], route[|route| - 1];
      var a := HopInput(h, b);
      QuoteSufficesIff(h, b);
      RouteQuoteFallsShort(front, a);
      RequiredFromFirst(b, h, Reverse(front));
      var bought := Through(RequiredThrough(a, Reverse(front)), front);
      if bought < a {
        HopOutputIncreases(h, bought, a);
      }
    }
  }

  // ----- What a route needs, fees included ------------------------------------------------------

  /** The input that buys `b` from the hop, fee included. */
  function HopNeed(h: RouteHop, b: real): real
    requires b < Net(h)
  {
    b * h.x1 / (Net(h) - b)
  }

  /** Going back from the last hop, every amount needed stays below what its hop can pay out net of the fee. */
  predicate Attainable(b: real, route: Route)
    decreases |route|
  {
    route == []
    || (var h := route[|route| - 1];
        b < Net(h) && Attainable(HopNeed(h, b), route[..|route| - 1]))
  }

  function Need(b: real, route: Route): real
    requires Attainable(b, route)
    decreases |route|
  {
    if route == [] then b else Need(HopNeed(route[|route| - 1], b), route[..|route| - 1])
  }

  lemma {:induction false} HopBuysIff(h: RouteHop, a: real, b: real)
    requires SoundHop(h) && a > 0.0 && b > 0.0
    ensures HopOutput(h, a) >= b <==> b < Net(h) && a >= HopNeed(h, b)
    ensures b < Net(h) ==> HopNeed(h, b) > 0.0
  {
    hide HopOutput, Pays;
    NetRange(h);
    HopPays(h, a);
    PaysEnoughIff(HopOutput(h, a), a, h.x1, Net(h), b);
    if b < Net(h) {
      NeedPays(b, h.x1, Net(h));
    }
  }

  /** getOutput reaches `b` exactly from the input that the route needs for it on; whatever the fees. */
  lemma {:induction false} BuysIff(route: Route, a: real, b: real)
    requires SoundRoute(route) && a > 0.0 && b > 0.0
    ensures Through(a, route) >= b <==> Attainable(b, route) && a >= Need(b, route)
    ensures Attainable(b, route) ==> Need(b, route) > 0.0
  {
    if route != [] {
      var front, h := route[..|route| - 1], route[|route| - 1];
      hide HopOutput, HopNeed, Net;
      HopBuysIff(h, Through(a, front), b);
      if b < Net(h) {
        BuysIff(front, a, HopNeed(h, b));
      }
    }
  }

  /** That input buys exactly `b`, and no other does: the inverse of getOutput, fees included. */
  lemma {:induction false} BuysExactlyIff(route: Route, a: real, b: real)
    requires SoundRoute(route) && a > 0.0 && b > 0.0
    ensures Through(a, route) == b <==> Attainable(b, route) && a == Need(b, route)
  {
    hide Through, Need, Attainable;
    BuysIff(route, a, b);
    if Attainable(b, route) {
      NeedBuys(route, b);
      var need := Need(b, route);
      if need < a {
        ThroughIncreases(route, need, a);
      }
    }
  }

  lemma {:induction false} NeedBuys(route: Route, b: real)
    requires SoundRoute(route) && b > 0.0 && Attainable(b, route)
    ensures Need(b, route) > 0.0 && Through(Need(b, route), route) == b
  {
    if route != [] {
      var front, h := route[..|route| - 1], route[|route| - 1];
      hide HopOutput, HopNeed, Net;
      HopNeedBuys(h, b);
      NeedBuys(front, HopNeed(h, b));
    }
  }

  lemma {:induction false} HopNeedBuys(h: RouteHop, b: real)
    requires SoundHop(h) && 0.0 < b < Net(h)
    ensures HopNeed(h, b) > 0.0 && HopOutput(h, HopNeed(h, b)) == b
  {
    hide HopOutput, Pays;
    var need := HopNeed(h, b);
    NeedPays(b, h.x1, Net(h));
    HopPays(h, need);
    NeedIsExact(HopOutput(h, need), b, h.x1, Net(h));
  }

  /**
   * So a quote that is a positive number, taken in either order and with any fees, suffices exactly when
   * it is at least that input, and is right exactly when it is that input.
   */
  lemma {:induction false} RouteQuoteSufficesIff(route: Route, quoted: Route, b: real)
    requires SoundRoute(route) && route != [] && b > 0.0
    requires (quoted == route || quoted == Reverse(route)) && AllBear(b, quoted)
    ensures Quote(b, quoted).Finite? && Quote(b, quoted).value > 0.0
    ensures var a := Quote(b, quoted).value;
            && (Output(a, route) >= b <==> Attainable(b, route) && a >= Need(b, route))
            && (Output(a, route) == b <==> Attainable(b, route) && a == Need(b, route))
  {
    hide Through, Need, Attainable, QuoteFold, AllBear;
    assert SoundRoute(Reverse(route));
    QuoteIsPositiveIff(b, quoted);
    var a := Quote(b, quoted).value;
    BuysIff(route, a, b);
    BuysExactlyIff(route, a, b);
  }

  // ----- The quote taken in list order ----------------------------------------------------------

  function ProductX(route: Route): real {
    if route == [] then 1.0 else ProductX(route[..|route| - 1]) * route[|route| - 1].x1
  }

  function ProductY(route: Route): real {
    if route == [] then 1.0 else ProductY(route[..|route| - 1]) * route[|route| - 1].y1
  }

  /** The part of a list-order quote that depends on the order of the hops. */
  function Slope(route: Route): real {
    if route == [] then 0.0
    else Slope(route[..|route| - 1]) * route[|route| - 1].y1 + ProductX(route[..|route| - 1])
  }

  lemma {:induction false} QuoteClosedForm(b: real, route: Route)
    requires SoundRoute(route) && FeeFree(route) && Quotable(b, route)
    ensures Folds(RequiredThrough(b, route), b, ProductX(route), ProductY(route), Slope(route))
  {
    hide Folds, HopInput, FeeFree, SoundRoute, Quotable, RequiredThrough, ProductX, ProductY, Slope;
    if route == [] {
      NothingFolds(b);
    } else {
      var front, h := route[..|route| - 1], route[|route| - 1];
      assert route == front + [h];
      RequiredSnoc(b, front, h);
      ProductsSnoc(front, h);
      QuoteClosedForm(b, front);
      HopFolds(h, RequiredThrough(b, front), b, ProductX(front), ProductY(front), Slope(front),
               ProductX(route), ProductY(route), Slope(route));
    }
  }

  lemma {:induction false} NothingFolds(b: real)
    ensures Quotable(b, []) && Folds(RequiredThrough(b, []), b, ProductX([]), ProductY([]), Slope([]))
  {
  }

  lemma {:induction false} RequiredSnoc(b: real, front: Route, h: RouteHop)
    requires SoundRoute(front + [h]) && FeeFree(front + [h]) && Quotable(b, front + [h])
    ensures SoundRoute(front) && FeeFree(front) && h.swapFee == 0.0
    ensures Quotable(b, front) && h.y1 != RequiredThrough(b, front)
    ensures RequiredThrough(b, front + [h]) == HopInput(h, RequiredThrough(b, front))
  {
    hide HopInput;
    assert (front + [h])[..|front|] == front && (front + [h])[|front|] == h;
  }

  lemma {:induction false} ProductsSnoc(front: Route, h: RouteHop)
    ensures ProductX(front + [h]) == ProductX(front) * h.x1
    ensures ProductY(front + [h]) == ProductY(front) * h.y1
    ensures Slope(front + [h]) == Slope(front) * h.y1 + ProductX(front)
  {
    assert (front + [h])[..|front|] == front;
  }

  lemma {:induction false} HopFolds(
      h: RouteHop, v: real, b: real, x: real, y: real, s: real, nextX: real, nextY: real, nextS: real)
    requires Folds(v, b, x, y, s) && h.y1 != v && h.swapFee == 0.0
    requires nextX == x * h.x1 && nextY == y * h.y1 && nextS == s * h.y1 + x
    ensures Folds(HopInput(h, v), b, nextX, nextY, nextS)
  {
    FoldsStep(v, b, x, y, s, h.x1, h.y1);
  }

  lemma {:induction false} ProductsFromFirst(h: RouteHop, rest: Route)
    ensures ProductX([h] + rest) == h.x1 * ProductX(rest)
    ensures ProductY([h] + rest) == h.y1 * ProductY(rest)
  {
    var all := [h] + rest;
    if rest == [] {
      assert all[..0] == [];
    } else {
      ProductsFromFirst(h, rest[..|rest| - 1]);
      assert all[..|all| - 1] == [h] + rest[..|rest| - 1];
    }
  }

  lemma {:induction false} ProductsOfReverse(route: Route)
    ensures ProductX(Reverse(route)) == ProductX(route)
    ensures ProductY(Reverse(route)) == ProductY(route)
  {
    if route != [] {
      ProductsFromFirst(route[|route| - 1], Reverse(route[..|route| - 1]));
      ProductsOfReverse(route[..|route| - 1]);
    }
  }

  lemma {:induction false} ProductXPositive(route: Route)
    requires SoundRoute(route)
    ensures ProductX(route) > 0.0
  {
    if route != [] {
      ProductXPositive(route[..|route| - 1]);
      assert SoundHop(route[|route| - 1]);
    }
  }

  /**
   * getRequiredInput folds the hops as listed, while the amount it prices leaves the last hop. Over
   * a route listed from input to output, and without fees, its quote is the amount that buys `b`
   * exactly when the route and its reverse have the same slope, whatever `b` is.
   */
  lemma {:induction false} ListOrderQuoteIsRightIff(route: Route, b: real)
    requires SoundRoute(route) && FeeFree(route) && route != []
    requires Fillable(b, route) && Quotable(b, route)
    ensures Quotable(b, Reverse(route)) && RequiredInput(b, Reverse(route)) > 0.0
    ensures Output(RequiredInput(b, Reverse(route)), route) == b
    ensures RequiredInput(b, route) == RequiredInput(b, Reverse(route))
            <==> Slope(route) == Slope(Reverse(route))
  {
    OutputUndoesQuote(route, b);
    SlopesDecide(route, Reverse(route), b);
  }

  lemma {:induction false} SlopesDecide(route: Route, back: Route, b: real)
    requires SoundRoute(route) && FeeFree(route) && back == Reverse(route) && b > 0.0
    requires Quotable(b, route) && Quotable(b, back)
    ensures RequiredThrough(b, route) == RequiredThrough(b, back) <==> Slope(route) == Slope(back)
  {
    hide ProductX, ProductY, Slope, RequiredThrough, Folds;
    QuoteClosedForm(b, route);
    QuoteClosedForm(b, back);
    ProductsOfReverse(route);
    ProductXPositive(route);
    FoldsDecide(RequiredThrough(b, route), RequiredThrough(b, back), b,
                ProductX(route), ProductY(route), Slope(route), Slope(back));
  }

  /** Two fee-free pools for which the list-order quote is wrong for every amount up to one unit. */
  lemma {:induction false} ListOrderQuoteCanBeWrong(b: real)
    requires 0.0 < b <= 1.0
    ensures var route := [RouteHop(1, "a", "b", 0.0, 100.0, 300.0), RouteHop(2, "b", "c", 0.0, 100.0, 400.0)];
            Quotable(b, route) && Quotable(b, Reverse(route))
            && RequiredInput(b, route) != RequiredInput(b, Reverse(route))
  {
    var g, h := RouteHop(1, "a", "b", 0.0, 100.0, 300.0), RouteHop(2, "b", "c", 0.0, 100.0, 400.0);
    SmallQuote(g, b);
    SmallQuote(h, b);
    TwoHopsCanClash(g, h, b);
  }

  lemma {:induction false} SmallQuote(h: RouteHop, b: real)
    requires h.swapFee == 0.0 && h.x1 == 100.0 && h.y1 >= 300.0 && 0.0 < b <= 1.0
    ensures 0.0 < HopInput(h, b) < 1.0
  {
    hide HopInput, Quotes;
    HopQuotes(h, b);
    Algebra.SmallQuote(HopInput(h, b), b, h.y1);
  }

  /** Two fee-free hops agree with their reverse only when their reserves differ by the same amount. */
  lemma {:induction false} TwoHopsCanClash(g: RouteHop, h: RouteHop, b: real)
    requires SoundHop(g) && SoundHop(h) && g.swapFee == 0.0 && h.swapFee == 0.0
    requires 0.0 < b < h.y1 && b < g.y1 && 0.0 < HopInput(h, b) < g.y1 && HopInput(g, b) != h.y1
    ensures Quotable(b, [g, h]) && Quotable(b, Reverse([g, h]))
    ensures RequiredInput(b, [g, h]) == RequiredInput(b, Reverse([g, h]))
            <==> h.y1 - h.x1 == g.y1 - g.x1
  {
    hide HopInput;
    var route := [g, h];
    assert route[..1] == [g] && [g][..0] == [] && [h, g][..1] == [h] && [h][..0] == [];
    assert Reverse(route) == [h, g] by { assert Reverse([g]) == [g]; }
    assert Quotable(b, []) && RequiredThrough(b, []) == b;
    assert Quotable(b, [g]) && RequiredThrough(b, [g]) == HopInput(g, b);
    assert Fillable(HopInput(h, b), [g]);
    ListOrderQuoteIsRightIff(route, b);
    SlopeOfTwo(g, h);
    SlopeOfTwo(h, g);
  }

  lemma {:induction false} SlopeOfTwo(g: RouteHop, h: RouteHop)
    ensures Slope([g, h]) == h.y1 + g.x1
  {
    assert [g, h][..1] == [g] && [g][..0] == [];
    assert Slope([g]) == 1.0 && ProductX([g]) == g.x1;
  }
}
