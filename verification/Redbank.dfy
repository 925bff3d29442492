/** Sizing the liquidations of one batch of positions (redbank/executor.ts). */
module Redbank {
  import opened Algebra
  import opened Prelude
  import opened Rounding

  type Denom = string

  datatype Asset = Asset(denom: Denom, amount: nat)

  datatype Position = Position(address: string, collaterals: seq<Asset>, debts: seq<Asset>)

  datatype LiquidationTx = LiquidationTx(collateralDenom: Denom, debtDenom: Denom, userAddress: string, amount: int)

  const MIN_SIZE := 1000.0

  /** Positions that have something to seize and something to repay. */
  function Eligible(positions: seq<Position>): (r: seq<Position>)
    ensures forall i :: 0 <= i < |r| ==> r[i] in positions && r[i].collaterals != [] && r[i].debts != []
  {
    var r := Filter(positions, (p: Position) => p.collaterals != [] && p.debts != []);
    assert forall i :: 0 <= i < |r| ==> r[i] in r;
    r
  }

  /**
   * The transaction is for the position that has something to seize and something to repay and exactly `i`
   * such before it: it names that position's address and the denoms of its largest collateral and debt.
   */
  ghost predicate IsForNth(tx: LiquidationTx, positions: seq<Position>, i: int, largest: seq<Asset> -> Asset) {
    exists k: nat ::
      && k < |positions| && positions[k].collaterals != [] && positions[k].debts != []
      && Kept(positions[..k], (p: Position) => p.collaterals != [] && p.debts != []) == i
      && tx.userAddress == positions[k].address
      && tx.collateralDenom == largest(positions[k].collaterals).denom
      && tx.debtDenom == largest(positions[k].debts).denom
  }

  function Value(amount: real, price: real): real {
    amount * price
  }

  /** All of the debt, or as much of it as the value `left` buys. */
  function Size(debt: nat, price: real, left: real): real {
    if left > Value(debt as real, price) then debt as real
    else if price == 0.0 then 0.0 else left / price
  }

  /** What the allocation is measured in: prices, and the asset picked from each list. */
  datatype Market = Market(prices: map<Denom, real>, largest: seq<Asset> -> Asset) {
    /** Where there is something to liquidate, the picks are members of the lists and the debt has a price. */
    ghost predicate Prices(positions: seq<Position>) {
      forall p :: p in positions && p.collaterals != [] && p.debts != []
        ==> && largest(p.collaterals) in p.collaterals && Debt(p) in p.debts
            && Debt(p).denom in prices && prices[Debt(p).denom] >= 0.0
    }

    function Price(denom: Denom): real {
      if denom in prices then prices[denom] else 0.0
    }

    function Debt(p: Position): Asset { largest(p.debts) }

    /** Value of the first `|raw|` repayments. */
    function Spent(served: seq<Position>, raw: seq<real>): real
      requires |raw| <= |served|
    {
      if raw == [] then 0.0
      else
        var k := |raw| - 1;
        var denom := Debt(served[k]).denom;
        Spent(served, raw[..k]) + raw[k] * (if denom in prices then prices[denom] else 0.0)
    }

    /** The repayment that `left` affords. */
    function Affordable(p: Position, left: real): real {
      Size(Debt(p).amount, Price(Debt(p).denom), left)
    }

    function TxFor(p: Position, amount: real): LiquidationTx {
      LiquidationTx(largest(p.collaterals).denom, Debt(p).denom, p.address, ToFixed0(amount))
    }

    /** Position `i` was offered all that its predecessors left, and there was enough to bother. */
    ghost predicate Serves(budget: real, served: seq<Position>, raw: seq<real>, i: nat)
      requires i < |raw| <= |served|
    {
      var left := budget - Spent(served, raw[..i]);
      left > MIN_SIZE && raw[i] == Affordable(served[i], left)
    }

    /** Positions are served in order for as long as more than the minimum size is left, and no longer. */
    ghost predicate Greedy(budget: real, eligible: seq<Position>, raw: seq<real>) {
      && |raw| <= |eligible|
      && (forall i :: 0 <= i < |raw| ==> Serves(budget, eligible, raw, i))
      && (|raw| < |eligible| ==> budget - Spent(eligible, raw) <= MIN_SIZE)
    }

    /** Later positions do not change what earlier ones were offered. */
    lemma {:induction false} SpentOnPrefix(served: seq<Position>, more: seq<Position>, raw: seq<real>)
      requires |raw| <= |served|
      ensures Spent(served + more, raw) == Spent(served, raw)
    {
      if raw != [] {
        SpentOnPrefix(served, more, raw[..|raw| - 1]);
      }
    }

    lemma {:induction false} ServesStill(
        budget: real, served: seq<Position>, more: seq<Position>, raw: seq<real>, x: seq<real>, i: nat)
      requires i < |raw| <= |served| && |x| <= |more| && Serves(budget, served, raw, i)
      ensures Serves(budget, served + more, raw + x, i)
    {
      assert (raw + x)[..i] == raw[..i];
      SpentOnPrefix(served, more, raw[..i]);
    }

    /** Whoever was skipped stays skipped: while value is left, every eligible position has been served. */
    lemma {:induction false} GreedyServes(
        budget: real, served: seq<Position>, raw: seq<real>, p: Position, amount: real)
      requires Greedy(budget, served, raw) && budget - Spent(served, raw) > MIN_SIZE
      requires amount == Affordable(p, budget - Spent(served, raw))
      ensures |raw| == |served|
      ensures Greedy(budget, served + [p], raw + [amount])
      ensures Txs(served + [p], raw + [amount]) == Txs(served, raw) + [TxFor(p, amount)]
      ensures Spent(served + [p], raw + [amount]) == Spent(served, raw) + Value(amount, Price(Debt(p).denom))
    {
      assert (raw + [amount])[..|raw|] == raw;
      SpentOnPrefix(served, [p], raw);
      forall i: nat | i < |raw|
        ensures Serves(budget, served + [p], raw + [amount], i)
      {
        ServesStill(budget, served, [p], raw, [amount], i);
      }
      assert Serves(budget, served + [p], raw + [amount], |raw|);
    }

    lemma {:induction false} GreedySkips(budget: real, served: seq<Position>, raw: seq<real>, p: Position)
      requires Greedy(budget, served, raw) && budget - Spent(served, raw) <= MIN_SIZE
      ensures Greedy(budget, served + [p], raw)
      ensures Txs(served + [p], raw) == Txs(served, raw)
      ensures Spent(served + [p], raw) == Spent(served, raw)
    {
      SpentOnPrefix(served, [p], raw);
      forall i: nat | i < |raw|
        ensures Serves(budget, served + [p], raw, i)
      {
        ServesStill(budget, served, [p], raw, [], i);
        assert raw + [] == raw;
      }
    }

    /** The unrounded repayments: each position in turn gets what is affordable while it is worth the bother. */
    function Repayments(budget: real, eligible: seq<Position>): (raw: seq<real>)
      ensures |raw| <= |eligible|
    {
      if eligible == [] then []
      else
        var front, last := eligible[..|eligible| - 1], eligible[|eligible| - 1];
        var raw := Repayments(budget, front);
        var left := budget - Spent(front, raw);
        if left > MIN_SIZE then raw + [Affordable(last, left)] else raw
    }

    lemma {:induction false} RepaymentsSnoc(budget: real, front: seq<Position>, last: Position)
      ensures var raw := Repayments(budget, front);
              var left := budget - Spent(front, raw);
              Repayments(budget, front + [last]) == if left > MIN_SIZE then raw + [Affordable(last, left)] else raw
    {
      assert (front + [last])[..|front|] == front;
    }

    lemma {:induction false} GreedyNext(budget: real, front: seq<Position>, raw: seq<real>, last: Position)
      requires Greedy(budget, front, raw)
      ensures var left := budget - Spent(front, raw);
              Greedy(budget, front + [last], if left > MIN_SIZE then raw + [Affordable(last, left)] else raw)
    {
      if budget - Spent(front, raw) > MIN_SIZE {
        GreedyServes(budget, front, raw, last, Affordable(last, budget - Spent(front, raw)));
      } else {
        GreedySkips(budget, front, raw, last);
      }
    }

    lemma {:induction false} NoneToRepay(budget: real)
      ensures Greedy(budget, [], Repayments(budget, []))
    {
    }

    lemma {:induction false} RepaymentsAreGreedy(budget: real, eligible: seq<Position>)
      ensures Greedy(budget, eligible, Repayments(budget, eligible))
    {
      hide Greedy, Affordable, Spent, Repayments;
      if eligible == [] {
        NoneToRepay(budget);
      } else {
        var front, last := eligible[..|eligible| - 1], eligible[|eligible| - 1];
        RepaymentsAreGreedy(budget, front);
        RepaymentsSnoc(budget, front, last);
        GreedyNext(budget, front, Repayments(budget, front), last);
        assert eligible == front + [last];
      }
    }

    lemma {:induction false} ServedHadEnough(budget: real, eligible: seq<Position>, raw: seq<real>, i: nat)
      requires Greedy(budget, eligible, raw) && i < |raw|
      ensures budget - Spent(eligible, raw[..i]) > MIN_SIZE
    {
      assert Serves(budget, eligible, raw, i);
    }

    lemma {:induction false} GreedyAgrees(budget: real, eligible: seq<Position>, a: seq<real>, b: seq<real>, i: nat)
      requires Greedy(budget, eligible, a) && Greedy(budget, eligible, b) && i <= |a| && i <= |b|
      ensures a[..i] == b[..i]
    {
      if i > 0 {
        GreedyAgrees(budget, eligible, a, b, i - 1);
        assert Serves(budget, eligible, a, i - 1) && Serves(budget, eligible, b, i - 1);
        assert a[..i] == a[..i - 1] + [a[i - 1]] && b[..i] == b[..i - 1] + [b[i - 1]];
      }
    }

    lemma {:induction false} GreedyIsNoLonger(budget: real, eligible: seq<Position>, a: seq<real>, b: seq<real>)
      requires Greedy(budget, eligible, a) && Greedy(budget, eligible, b)
      ensures |b| <= |a|
    {
      if |a| < |b| {
        GreedyAgrees(budget, eligible, a, b, |a|);
        assert a[..|a|] == a;
        ServedHadEnough(budget, eligible, b, |a|);
      }
    }

    /** The greedy allocation exists and is the only one. */
    lemma {:induction false} GreedyIff(budget: real, eligible: seq<Position>, raw: seq<real>)
      ensures Greedy(budget, eligible, raw) <==> raw == Repayments(budget, eligible)
    {
      var mine := Repayments(budget, eligible);
      RepaymentsAreGreedy(budget, eligible);
      if Greedy(budget, eligible, raw) {
        GreedyIsNoLonger(budget, eligible, raw, mine);
        GreedyIsNoLonger(budget, eligible, mine, raw);
        GreedyAgrees(budget, eligible, raw, mine, |raw|);
        assert raw[..|raw|] == raw && mine[..|raw|] == mine;
      }
    }

    function Txs(served: seq<Position>, raw: seq<real>): seq<LiquidationTx>
      requires |raw| <= |served|
    {
      seq(|raw|, i requires 0 <= i < |raw| => TxFor(served[i], raw[i]))
    }
  }

  /** Unrounded amount to repay in `denom`. */
  function RawFor(denom: Denom, txs: seq<LiquidationTx>, raw: seq<real>): real
    requires |txs| == |raw|
  {
    if raw == [] then 0.0
    else
      var k := |raw| - 1;
      RawFor(denom, txs[..k], raw[..k]) + if txs[k].debtDenom == denom then raw[k] else 0.0
  }

  /** Amount that the transactions in `denom` state, each rounded on its own. */
  function StatedFor(denom: Denom, txs: seq<LiquidationTx>): int {
    if txs == [] then 0
    else
      var k := |txs| - 1;
      StatedFor(denom, txs[..k]) + if txs[k].debtDenom == denom then txs[k].amount else 0
  }

  /** The stated amounts of a denom add up over the transactions that repay it. */
  lemma {:induction false} StatedSnoc(denom: Denom, txs: seq<LiquidationTx>, last: LiquidationTx)
    ensures StatedFor(denom, txs + [last]) == StatedFor(denom, txs) + if last.debtDenom == denom then last.amount else 0
    ensures StatedFor(denom, []) == 0
  {
    assert (txs + [last])[..|txs|] == txs;
  }

  lemma {:induction false} StatedAdds(denom: Denom, txs: seq<LiquidationTx>, i: nat)
    requires i < |txs|
    ensures StatedFor(denom, txs)
            == StatedFor(denom, txs[..i] + txs[i + 1..]) + if txs[i].debtDenom == denom then txs[i].amount else 0
    ensures StatedFor(denom, []) == 0
  {
    hide StatedFor;
    var front, last := txs[..|txs| - 1], txs[|txs| - 1];
    assert txs == front + [last];
    StatedSnoc(denom, front, last);
    if i < |front| {
      StatedAdds(denom, front, i);
      StatedSnoc(denom, front[..i] + front[i + 1..], last);
      assert txs[..i] + txs[i + 1..] == (front[..i] + front[i + 1..]) + [last];
    } else {
      assert txs[..i] + txs[i + 1..] == front;
    }
  }

  /** One entry for each denom that some transaction repays, holding the unrounded sum. */
  ghost predicate Totals(debts: map<Denom, real>, txs: seq<LiquidationTx>, raw: seq<real>) {
    && |txs| == |raw|
    && (forall d :: d in debts <==> exists i :: 0 <= i < |txs| && txs[i].debtDenom == d)
    && (forall d :: d in debts ==> debts[d] == RawFor(d, txs, raw))
  }

  lemma {:induction false} TotalsGrow(
      debts: map<Denom, real>, txs: seq<LiquidationTx>, raw: seq<real>, tx: LiquidationTx, amount: real)
    requires Totals(debts, txs, raw)
    ensures var existing := if tx.debtDenom in debts then debts[tx.debtDenom] else 0.0;
            Totals(debts[tx.debtDenom := amount + existing], txs + [tx], raw + [amount])
  {
    var d := tx.debtDenom;
    assert (txs + [tx])[..|txs|] == txs && (raw + [amount])[..|raw|] == raw;
    if d !in debts {
      NoneFor(d, txs, raw);
    }
    assert (txs + [tx])[|txs|].debtDenom == d;
    forall e
      ensures e in debts || e == d <==> exists i :: 0 <= i < |txs| + 1 && (txs + [tx])[i].debtDenom == e
    {
      if e in debts {
        var i :| 0 <= i < |txs| && txs[i].debtDenom == e;
        assert (txs + [tx])[i].debtDenom == e;
      }
    }
  }

  lemma {:induction false} NoneFor(denom: Denom, txs: seq<LiquidationTx>, raw: seq<real>)
    requires |txs| == |raw| && forall i :: 0 <= i < |txs| ==> txs[i].debtDenom != denom
    ensures RawFor(denom, txs, raw) == 0.0
  {
    if raw != [] {
      NoneFor(denom, txs[..|txs| - 1], raw[..|raw| - 1]);
    }
  }

  lemma {:induction false} NextEligible(positions: seq<Position>, i: nat)
    requires i < |positions|
    ensures Eligible(positions[..i + 1])
            == if positions[i].collaterals != [] && positions[i].debts != []
               then Eligible(positions[..i]) + [positions[i]]
               else Eligible(positions[..i])
  {
    assert positions[..i + 1][..i] == positions[..i];
  }

  /** The state of the allocation after `positions`. */
  ghost predicate Allocated(
      m: Market, budget: real, positions: seq<Position>, raw: seq<real>,
      txs: seq<LiquidationTx>, debts: map<Denom, real>, spent: real)
  {
    AllocatedTo(m, budget, Eligible(positions), raw, txs, debts, spent)
  }

  ghost predicate AllocatedTo(
      m: Market, budget: real, eligible: seq<Position>, raw: seq<real>,
      txs: seq<LiquidationTx>, debts: map<Denom, real>, spent: real)
  {
    && m.Greedy(budget, eligible, raw) && txs == m.Txs(eligible, raw)
    && Totals(debts, txs, raw) && spent == m.Spent(eligible, raw)
  }

  lemma {:induction false} ServesOne(
      m: Market, budget: real, eligible: seq<Position>, raw: seq<real>,
      txs: seq<LiquidationTx>, debts: map<Denom, real>, spent: real, p: Position)
    requires AllocatedTo(m, budget, eligible, raw, txs, debts, spent) && budget - spent > MIN_SIZE
    ensures var amount := m.Affordable(p, budget - spent);
            var tx := m.TxFor(p, amount);
            var existing := if tx.debtDenom in debts then debts[tx.debtDenom] else 0.0;
            AllocatedTo(m, budget, eligible + [p], raw + [amount], txs + [tx],
                        debts[tx.debtDenom := amount + existing], spent + Value(amount, m.Price(tx.debtDenom)))
  {
    hide Totals, Market.Greedy, Market.Spent, Market.Txs, Market.Affordable, Market.Price, Value;
    var amount := m.Affordable(p, budget - spent);
    m.GreedyServes(budget, eligible, raw, p, amount);
    TotalsGrow(debts, txs, raw, m.TxFor(p, amount), amount);
  }

  lemma {:induction false} NothingAllocated(m: Market, budget: real, positions: seq<Position>)
    ensures Allocated(m, budget, positions[..0], [], [], map[], 0.0)
  {
  }

  lemma {:induction false} AllocatedServes(
      m: Market, budget: real, positions: seq<Position>, i: nat, raw: seq<real>,
      txs: seq<LiquidationTx>, debts: map<Denom, real>, spent: real)
    requires i < |positions| && positions[i].collaterals != [] && positions[i].debts != []
    requires Allocated(m, budget, positions[..i], raw, txs, debts, spent) && budget - spent > MIN_SIZE
    ensures var amount := m.Affordable(positions[i], budget - spent);
            var tx := m.TxFor(positions[i], amount);
            var existing := if tx.debtDenom in debts then debts[tx.debtDenom] else 0.0;
            Allocated(m, budget, positions[..i + 1], raw + [amount], txs + [tx],
                      debts[tx.debtDenom := amount + existing],
                      spent + Value(amount, m.Price(tx.debtDenom)))
  {
    hide Eligible, AllocatedTo, Market.Affordable, Market.TxFor, Market.Price, Value;
    NextEligible(positions, i);
    ServesOne(m, budget, Eligible(positions[..i]), raw, txs, debts, spent, positions[i]);
  }

  lemma {:induction false} AllocatedSkips(
      m: Market, budget: real, positions: seq<Position>, i: nat, raw: seq<real>,
      txs: seq<LiquidationTx>, debts: map<Denom, real>, spent: real)
    requires i < |positions| && Allocated(m, budget, positions[..i], raw, txs, debts, spent)
    requires positions[i].collaterals == [] || positions[i].debts == [] || budget - spent <= MIN_SIZE
    ensures Allocated(m, budget, positions[..i + 1], raw, txs, debts, spent)
  {
    hide Eligible, Totals, Market.Greedy, Market.Spent, Market.Txs;
    NextEligible(positions, i);
    if positions[i].collaterals != [] && positions[i].debts != [] {
      m.GreedySkips(budget, Eligible(positions[..i]), raw, positions[i]);
    }
  }

  lemma {:induction false} AllocatedAll(
      m: Market, budget: real, positions: seq<Position>, raw: seq<real>,
      txs: seq<LiquidationTx>, debts: map<Denom, real>, spent: real)
    requires Allocated(m, budget, positions[..|positions|], raw, txs, debts, spent)
    ensures raw == m.Repayments(budget, Eligible(positions)) && txs == m.Txs(Eligible(positions), raw)
    ensures Totals(debts, txs, raw)
  {
    assert positions[..|positions|] == positions;
    m.GreedyIff(budget, Eligible(positions), raw);
  }

  lemma {:induction false} TxsName(m: Market, positions: seq<Position>, raw: seq<real>, txs: seq<LiquidationTx>)
    requires |raw| <= |Eligible(positions)| && txs == m.Txs(Eligible(positions), raw)
    ensures forall i :: 0 <= i < |txs| ==> IsForNth(txs[i], positions, i, m.largest)
  {
    forall i | 0 <= i < |txs|
      ensures IsForNth(txs[i], positions, i, m.largest)
    {
      var k := FilterAt(positions, (p: Position) => p.collaterals != [] && p.debts != [], i);
      assert txs[i] == m.TxFor(positions[k], raw[i]);
    }
  }

  class Executor {
    var balances: map<Denom, real>
    var prices: map<Denom, real>
    const neutralAssetDenom: Denom
    const safetyMargin: real

    constructor (neutralAssetDenom: Denom, safetyMargin: real)
      ensures this.neutralAssetDenom == neutralAssetDenom && this.safetyMargin == safetyMargin
    {
      this.neutralAssetDenom := neutralAssetDenom;
      this.safetyMargin := safetyMargin;
      balances, prices := map[], map[];
    }

    function AvailableValue(): real
      reads this
    {
      (if neutralAssetDenom in balances then balances[neutralAssetDenom] else 0.0)
      * (if neutralAssetDenom in prices then prices[neutralAssetDenom] else 0.0)
    }

    /** The value that may be spent once the safety margin is set aside. */
    function Budget(): real
      reads this
    {
      AvailableValue() * (1.0 - safetyMargin)
    }

    lemma {:induction false} BudgetValue()
      ensures Budget() == if neutralAssetDenom in balances && neutralAssetDenom in prices
                          then balances[neutralAssetDenom] * prices[neutralAssetDenom] * (1.0 - safetyMargin) else 0.0
    {
    }

    method ProduceLiquidationTxs(positionData: seq<Position>, largest: seq<Asset> -> Asset)
      returns (txs: seq<LiquidationTx>, debtsToRepay: map<Denom, real>)
      requires Market(prices, largest).Prices(positionData)
      ensures forall i :: 0 <= i < |txs| ==> IsForNth(txs[i], positionData, i, largest)
      ensures var market, eligible := Market(prices, largest), Eligible(positionData);
              && txs == market.Txs(eligible, market.Repayments(Budget(), eligible))
              && Totals(debtsToRepay, txs, market.Repayments(Budget(), eligible))
      ensures var market, eligible := Market(prices, largest), Eligible(positionData);
              var spent := market.Spent(eligible, market.Repayments(Budget(), eligible));
              if neutralAssetDenom in balances && neutralAssetDenom in prices then
                var budget := balances[neutralAssetDenom] * prices[neutralAssetDenom] * (1.0 - safetyMargin);
                (txs != [] ==> spent <= budget) && (|txs| < |eligible| ==> spent >= budget - 1000.0)
              else txs == []
    {
      ghost var market := Market(prices, largest);
      hide Eligible, Allocated, Market.Prices, Market.Repayments, Market.Txs, Totals, Budget, Value, Size;
      NothingAllocated(market, Budget(), positionData);
      ghost var raw: seq<real> := [];
      txs, debtsToRepay := [], map[];
      var totalDebtValue := 0.0;
      for i := 0 to |positionData|
        invariant Allocated(market, Budget(), positionData[..i], raw, txs, debtsToRepay, totalDebtValue)
      {
        var position := positionData[i];
        var remaining := Budget() - totalDebtValue;
        if |position.collaterals| > 0 && |position.debts| > 0 && remaining > MIN_SIZE {
          DebtIsPriced(market, positionData, position);
          AllocatedServes(market, Budget(), positionData, i, raw, txs, debtsToRepay, totalDebtValue);
          var largestCollateralDenom := largest(position.collaterals).denom;
          var largestDebt := largest(position.debts);
          var debtPrice := prices[largestDebt.denom];
          var amountToLiquidate := Size(largestDebt.amount, debtPrice, remaining);
          var amount := ToFixed0(amountToLiquidate);
          var tx := LiquidationTx(largestCollateralDenom, largestDebt.denom, position.address, amount);
          var existingDebt := if tx.debtDenom in debtsToRepay then debtsToRepay[tx.debtDenom] else 0.0;
          txs := txs + [tx];
          debtsToRepay := debtsToRepay[tx.debtDenom := amountToLiquidate + existingDebt];
          totalDebtValue := totalDebtValue + Value(amountToLiquidate, debtPrice);
          raw := raw + [amountToLiquidate];
        } else {
          AllocatedSkips(market, Budget(), positionData, i, raw, txs, debtsToRepay, totalDebtValue);
        }
      }
      AllocatedAll(market, Budget(), positionData, raw, txs, debtsToRepay, totalDebtValue);
      TxsName(market, positionData, raw, txs);
      NothingWithoutBudget(market, Budget(), Eligible(positionData));
      OnlyLastIsPartial(market, Budget(), positionData, market.Repayments(Budget(), Eligible(positionData)));
      BudgetValue();
    }
  }

  lemma {:induction false} NothingWithoutBudget(m: Market, budget: real, eligible: seq<Position>)
    ensures m.Greedy(budget, eligible, m.Repayments(budget, eligible))
    ensures budget <= 1000.0 ==> m.Repayments(budget, eligible) == []
  {
    m.GreedyIff(budget, eligible, m.Repayments(budget, eligible));
    if m.Repayments(budget, eligible) != [] {
      assert m.Serves(budget, eligible, m.Repayments(budget, eligible), 0);
    }
  }

  // ----- What the allocation promises -----------------------------------------------------------

  /** A position that is offered less than its debt uses up the budget. */
  lemma {:induction false} PartialSpendsAll(m: Market, budget: real, served: seq<Position>, raw: seq<real>, i: nat)
    requires i < |raw| <= |served| && m.Serves(budget, served, raw, i) && m.Price(m.Debt(served[i]).denom) >= 0.0
    ensures 0.0 <= raw[i] <= m.Debt(served[i]).amount as real
    ensures m.Spent(served, raw[..i + 1]) <= budget
    ensures raw[i] < m.Debt(served[i]).amount as real ==> m.Spent(served, raw[..i + 1]) == budget
  {
    assert raw[..i + 1][..i] == raw[..i];
    var left, debt := budget - m.Spent(served, raw[..i]), m.Debt(served[i]);
    var price, amount := m.Price(debt.denom), debt.amount as real;
    if price > 0.0 {
      var q := left / price;
      assert q * price == left;
      ScaleCompare(0.0, q, price);
      ScaleCompare(amount, q, price);
      ScaleCompare(q, amount, price);
    } else {
      assert amount * price == 0.0 && raw[i] == amount;
    }
  }

  /** At most one repayment is partial, and only the last can be; the value spent stays in the budget. */
  lemma {:induction false} OnlyLastIsPartial(m: Market, budget: real, positions: seq<Position>, raw: seq<real>)
    requires m.Prices(positions) && m.Greedy(budget, Eligible(positions), raw)
    ensures forall i :: 0 <= i < |raw| ==> 0.0 <= raw[i] <= m.Debt(Eligible(positions)[i]).amount as real
    ensures forall i :: 0 <= i < |raw| - 1 ==> raw[i] == m.Debt(Eligible(positions)[i]).amount as real
    ensures raw != [] ==> m.Spent(Eligible(positions), raw) <= budget
    ensures raw != [] && raw[|raw| - 1] < m.Debt(Eligible(positions)[|raw| - 1]).amount as real
            ==> m.Spent(Eligible(positions), raw) == budget
    ensures |raw| < |Eligible(positions)| ==> m.Spent(Eligible(positions), raw) >= budget - 1000.0
    ensures forall i :: 0 <= i < |raw| ==> budget - m.Spent(Eligible(positions), raw[..i]) > 1000.0
  {
    var served := Eligible(positions);
    forall i: nat | i < |raw|
      ensures 0.0 <= raw[i] <= m.Debt(served[i]).amount as real
      ensures i < |raw| - 1 ==> raw[i] == m.Debt(served[i]).amount as real
      ensures budget - m.Spent(served, raw[..i]) > 1000.0
      ensures i == |raw| - 1 ==> m.Spent(served, raw) <= budget
      ensures i == |raw| - 1 && raw[i] < m.Debt(served[i]).amount as real ==> m.Spent(served, raw) == budget
    {
      DebtIsPriced(m, positions, served[i]);
      PartialSpendsAll(m, budget, served, raw, i);
      if i < |raw| - 1 {
        assert m.Serves(budget, served, raw, i + 1);
      } else {
        assert raw[..i + 1] == raw;
      }
    }
    if raw != [] {
      assert |raw| - 1 < |raw|;
    }
  }

  lemma {:induction false} DebtIsPriced(m: Market, positions: seq<Position>, p: Position)
    requires m.Prices(positions) && p in positions && p.collaterals != [] && p.debts != []
    ensures m.Debt(p).denom in m.prices && m.Price(m.Debt(p).denom) >= 0.0
  {
  }

  /** Whole amounts everywhere but in the last transaction make rounding of the sum exact. */
  lemma {:induction false} RoundedSumIsSumOfRounded(
      denom: Denom, txs: seq<LiquidationTx>, raw: seq<real>, whole: seq<nat>)
    requires |txs| == |raw| == |whole|
    requires forall i :: 0 <= i < |raw| ==> raw[i] >= 0.0 && txs[i].amount == ToFixed0(raw[i])
    requires forall i :: 0 <= i < |raw| - 1 ==> raw[i] == whole[i] as real
    ensures RawFor(denom, txs, raw) >= 0.0
    ensures ToFixed0(RawFor(denom, txs, raw)) == StatedFor(denom, txs)
  {
    if raw == [] {
      IntegersStay(0);
    } else {
      var k := |raw| - 1;
      var before := WholeSum(denom, txs[..k], raw[..k], whole[..k]);
      if txs[k].debtDenom == denom {
        WholeUnitsPass(before, raw[k]);
      } else {
        IntegersStay(before);
      }
    }
  }

  lemma {:induction false} WholeSum(denom: Denom, txs: seq<LiquidationTx>, raw: seq<real>, whole: seq<nat>)
    returns (sum: nat)
    requires |txs| == |raw| == |whole|
    requires forall i :: 0 <= i < |raw| ==> raw[i] == whole[i] as real && txs[i].amount == ToFixed0(raw[i])
    ensures RawFor(denom, txs, raw) == sum as real && StatedFor(denom, txs) == sum
  {
    if raw == [] {
      sum := 0;
    } else {
      var k := |raw| - 1;
      sum := WholeSum(denom, txs[..k], raw[..k], whole[..k]);
      IntegersStay(whole[k]);
      if txs[k].debtDenom == denom {
        sum := sum + whole[k];
      }
    }
  }

  /** The coins attached to the liquidate message, each rounded from the unrounded total. */
  function DebtCoins(debtsToRepay: map<Denom, real>): map<Denom, int> {
    map d | d in debtsToRepay :: ToFixed0(debtsToRepay[d])
  }

  /** For every denom the attached coin is exactly the sum of what the transactions state. */
  lemma {:induction false} CoinsMatchTransactions(
      m: Market, budget: real, positions: seq<Position>, raw: seq<real>,
      txs: seq<LiquidationTx>, debtsToRepay: map<Denom, real>)
    requires m.Prices(positions) && m.Greedy(budget, Eligible(positions), raw)
    requires txs == m.Txs(Eligible(positions), raw) && Totals(debtsToRepay, txs, raw)
    ensures forall d :: d in DebtCoins(debtsToRepay) ==> DebtCoins(debtsToRepay)[d] == StatedFor(d, txs)
    ensures forall d :: d !in DebtCoins(debtsToRepay) ==> StatedFor(d, txs) == 0
  {
    OnlyLastIsPartial(m, budget, positions, raw);
    var served := Eligible(positions);
    var whole := seq(|raw|, i requires 0 <= i < |raw| => m.Debt(served[i]).amount);
    forall d
      ensures ToFixed0(RawFor(d, txs, raw)) == StatedFor(d, txs)
      ensures d !in debtsToRepay ==> StatedFor(d, txs) == 0
    {
      RoundedSumIsSumOfRounded(d, txs, raw, whole);
      if d !in debtsToRepay {
        NoneFor(d, txs, raw);
        IntegersStay(0);
      }
    }
  }

  /** No transaction states more than the debt it is for. */
  lemma {:induction false} TransactionsStayWithinDebt(m: Market, budget: real, positions: seq<Position>, raw: seq<real>)
    requires m.Prices(positions) && m.Greedy(budget, Eligible(positions), raw)
    ensures forall i :: 0 <= i < |raw|
              ==> 0 <= m.Txs(Eligible(positions), raw)[i].amount <= m.Debt(Eligible(positions)[i]).amount
  {
    OnlyLastIsPartial(m, budget, positions, raw);
    forall i | 0 <= i < |raw|
      ensures 0 <= m.Txs(Eligible(positions), raw)[i].amount <= m.Debt(Eligible(positions)[i]).amount
    {
      NeverAboveWholeBound(raw[i], m.Debt(Eligible(positions)[i]).amount);
    }
  }

  // ----- combineBalances ------------------------------------------------------------------------

  function LastAmount(coins: seq<Asset>, denom: Denom): nat {
    if coins == [] then 0
    else if coins[|coins| - 1].denom == denom then coins[|coins| - 1].amount
    else LastAmount(coins[..|coins| - 1], denom)
  }

  function SumAmount(coins: seq<Asset>, denom: Denom): nat {
    if coins == [] then 0
    else
      SumAmount(coins[..|coins| - 1], denom)
      + if coins[|coins| - 1].denom == denom then coins[|coins| - 1].amount else 0
  }

  lemma {:induction false} SumSnoc(coins: seq<Asset>, denom: Denom, last: Asset)
    ensures SumAmount(coins + [last], denom) == SumAmount(coins, denom) + if last.denom == denom then last.amount else 0
    ensures SumAmount([], denom) == 0
  {
    assert (coins + [last])[..|coins|] == coins;
  }

  lemma {:induction false} SumAdds(coins: seq<Asset>, denom: Denom, i: nat)
    requires i < |coins|
    ensures SumAmount(coins, denom)
            == SumAmount(coins[..i] + coins[i + 1..], denom) + if coins[i].denom == denom then coins[i].amount else 0
    ensures SumAmount([], denom) == 0
  {
    hide SumAmount;
    var front, last := coins[..|coins| - 1], coins[|coins| - 1];
    assert coins == front + [last];
    SumSnoc(front, denom, last);
    if i < |front| {
      SumAdds(front, denom, i);
      SumSnoc(front[..i] + front[i + 1..], denom, last);
      assert coins[..i] + coins[i + 1..] == (front[..i] + front[i + 1..]) + [last];
    } else {
      assert coins[..i] + coins[i + 1..] == front;
    }
  }

  /** The last coin of a denom counts, and none means zero. */
  lemma {:induction false} LastCounts(coins: seq<Asset>, denom: Denom)
    ensures LastAmount(coins, denom) > 0
            ==> exists i :: 0 <= i < |coins| && coins[i] == Asset(denom, LastAmount(coins, denom))
                            && forall j :: i < j < |coins| ==> coins[j].denom != denom
    ensures forall i :: 0 <= i < |coins| && coins[i].denom == denom
                        && (forall j :: i < j < |coins| ==> coins[j].denom != denom)
              ==> LastAmount(coins, denom) == coins[i].amount
  {
    if coins != [] {
      var front, last := coins[..|coins| - 1], coins[|coins| - 1];
      LastCounts(front, denom);
      assert forall i :: 0 <= i < |front| ==> front[i] == coins[i];
      if last.denom == denom {
        assert coins[|coins| - 1] == Asset(denom, last.amount);
      }
    }
  }

  predicate Mentions(coins: seq<Asset>, denom: Denom) {
    exists i :: 0 <= i < |coins| && coins[i].denom == denom
  }

  /** Collaterals overwrite each other, balances add up. */
  method CombineBalances(collaterals: seq<Asset>, balances: seq<Asset>) returns (coinMap: map<Denom, nat>)
    ensures forall d :: d in coinMap <==> Mentions(collaterals, d) || Mentions(balances, d)
    ensures forall d :: d in coinMap ==> coinMap[d] == LastAmount(collaterals, d) + SumAmount(balances, d)
  {
    coinMap := map[];
    for i := 0 to |collaterals|
      invariant forall d :: d in coinMap <==> Mentions(collaterals[..i], d)
      invariant forall d :: (if d in coinMap then coinMap[d] else 0) == LastAmount(collaterals[..i], d)
    {
      MentionsNext(collaterals, i);
      coinMap := coinMap[collaterals[i].denom := collaterals[i].amount];
    }
    assert collaterals[..|collaterals|] == collaterals;
    for i := 0 to |balances|
      invariant forall d :: d in coinMap <==> Mentions(collaterals, d) || Mentions(balances[..i], d)
      invariant forall d :: LastAmount(collaterals, d) + SumAmount(balances[..i], d)
                            == if d in coinMap then coinMap[d] else 0
    {
      MentionsNext(balances, i);
      var denom := balances[i].denom;
      var existingBalance := if denom in coinMap then coinMap[denom] else 0;
      coinMap := coinMap[denom := existingBalance + balances[i].amount];
    }
    assert balances[..|balances|] == balances;
  }

  lemma {:induction false} MentionsNext(coins: seq<Asset>, i: nat)
    requires i < |coins|
    ensures coins[..i + 1][..i] == coins[..i]
    ensures forall d :: Mentions(coins[..i + 1], d) <==> Mentions(coins[..i], d) || coins[i].denom == d
  {
    forall d
      ensures Mentions(coins[..i + 1], d) <==> Mentions(coins[..i], d) || coins[i].denom == d
    {
      assert coins[..i + 1][i] == coins[i];
      if Mentions(coins[..i], d) {
        var j :| 0 <= j < i && coins[..i][j].denom == d;
        assert coins[..i + 1][j].denom == d;
      }
    }
  }

  /** An entry with a positive amount that a later entry in the same denom overwrites. */
  predicate Overwritten(coins: seq<Asset>, i: int, j: int) {
    0 <= i < j < |coins| && coins[i].denom == coins[j].denom && coins[i].amount > 0
  }

  ghost predicate Loses(coins: seq<Asset>, denom: Denom) {
    exists i, j :: Overwritten(coins, i, j) && coins[i].denom == denom
  }

  lemma {:induction false} SumIsZeroIff(coins: seq<Asset>, denom: Denom)
    ensures SumAmount(coins, denom) == 0
            <==> forall i :: 0 <= i < |coins| && coins[i].denom == denom ==> coins[i].amount == 0
  {
    if coins != [] {
      SumIsZeroIff(coins[..|coins| - 1], denom);
    }
  }

  lemma {:induction false} LastIsSumIff(coins: seq<Asset>, denom: Denom)
    ensures LastAmount(coins, denom) == SumAmount(coins, denom) <==> !Loses(coins, denom)
  {
    if coins != [] {
      var k := |coins| - 1;
      var front := coins[..k];
      LastIsSumIff(front, denom);
      SumIsZeroIff(front, denom);
      LosesNext(coins, denom);
    }
  }

  lemma {:induction false} LosesNext(coins: seq<Asset>, denom: Denom)
    requires coins != []
    ensures var front, last := coins[..|coins| - 1], coins[|coins| - 1];
            Loses(coins, denom)
            <==> Loses(front, denom)
                 || (&& last.denom == denom
                     && exists i :: 0 <= i < |front| && front[i].denom == denom && front[i].amount > 0)
  {
    var k := |coins| - 1;
    var front := coins[..k];
    if Loses(front, denom) {
      var i, j :| Overwritten(front, i, j) && front[i].denom == denom;
      assert Overwritten(coins, i, j);
    }
    if Loses(coins, denom) {
      var i, j :| Overwritten(coins, i, j) && coins[i].denom == denom;
      assert front[i] == coins[i];
      assert j < k ==> Overwritten(front, i, j);
    }
    if i :| 0 <= i < k && coins[k].denom == denom && front[i].denom == denom && front[i].amount > 0 {
      assert Overwritten(coins, i, k);
    }
  }

  /** The merged amounts keep every coin exactly when no collateral entry overwrites a positive one. */
  lemma {:induction false} NothingLostIff(collaterals: seq<Asset>, balances: seq<Asset>)
    ensures (forall d :: LastAmount(collaterals, d) + SumAmount(balances, d)
                         == SumAmount(collaterals, d) + SumAmount(balances, d))
            <==> forall i, j :: !Overwritten(collaterals, i, j)
  {
    forall d
      ensures LastAmount(collaterals, d) == SumAmount(collaterals, d) <==> !Loses(collaterals, d)
    {
      LastIsSumIff(collaterals, d);
    }
    if i, j :| Overwritten(collaterals, i, j) {
      var d := collaterals[i].denom;
      assert Loses(collaterals, d);
      assert LastAmount(collaterals, d) + SumAmount(balances, d) != SumAmount(collaterals, d) + SumAmount(balances, d);
    }
  }

  /** Two collateral entries of one denom, 1 and 2: merging leaves 2 of the 3. */
  lemma {:induction false} CombineCanLose()
    ensures var collaterals := [Asset("a", 1), Asset("a", 2)];
            LastAmount(collaterals, "a") == 2 && SumAmount(collaterals, "a") == 3
  {
    var first := [Asset("a", 1)];
    assert [Asset("a", 1), Asset("a", 2)][..1] == first && first[..0] == [];
    assert SumAmount(first, "a") == 1;
  }
}
