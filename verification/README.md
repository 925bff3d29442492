# Liquidation bot: a verified model

The bot watches a lending protocol and liquidates unhealthy accounts. A manager pages through the
contract state and scales three services; a collector turns raw state into one work item per account;
a health checker runs queries on a worker pool; an executor sizes liquidations, routes swaps through
constant-product pools and reads the results back. This project models the logic of those parts and
proves what holds over all inputs, all runs and all interleavings.

| file | part of the system |
|---|---|
| Pools, RouteSearch, RouteOrder, Reachability | the recursive route search of the AMM router, what it finds, in which order, and when it finds anything |
| Numbers, Algebra, Pricing, Execution | pricing a route by folding over its hops, and executing it against live pools |
| Sorting, BestRoute | choosing a route by sort and pop |
| WorkerPool, PoolRuns, Decimals | generator, workers, closer and consumer as interleaved steps over bounded channels |
| Batching, Paging | chunks, batched pushes, jobs, and the manager's pages |
| Rounding, Redbank | greedy sizing of liquidations, and its rounding |
| Rover | borrow and swap actions, and a small account interpreter that gives them meaning |
| Collector | length-prefixed keys and grouping by account |
| Deployer, Scaling | containers of one shared daemon, and the watermark scaler |
| LiquidationResults | results read from transaction attributes |
| Prelude | option and result types, filters, concatenation |

Amounts that the source keeps as BigNumber or number are exact reals, and where the source can divide
by zero a type with infinities and a non-number; amounts on chain are integers.
Code that updates state in place is a class or a method with a loop, proved against a function, and
the lemmas are about that function. Every lemma switches automatic induction off; inductions are
written out.

Some things the code or its comments suggest do not hold. The model keeps the code as it is; a
concrete input shows the failure where one is short to state, and an if-and-only-if says when the
code does meet the expectation:

- `getBestRouteGivenOutput` picks the dearest route, not the cheapest (BestRoute.BestGivenOutputCanBeDear, BestRoute.BestGivenOutputIsCheapestIff).
- The rover comparator's comment says it returns the cheapest swap; it ends on the costliest sufficient market (Rover.CostliestMarketIsChosen, Rover.Comparison.BestIsCheapestIff).
- `getRequiredInput` on a route listed from input to output is not the inverse of `getOutput` (Pricing.ListOrderQuoteCanBeWrong, Pricing.ListOrderQuoteIsRightIff); with a fee even one hop can fall short (Pricing.QuoteCanFallShort, Pricing.QuoteSufficesIff, Pricing.RouteQuoteSufficesIff).
- A market asked for more than its pool holds can count as sufficient: its quote is negative, or with a fee positive again but far too small (Rover.OverfullMarketLooksSufficient, Rover.OverfullMarketCanLendLittle, Pricing.QuoteIsPositiveIff, Pricing.RouteQuoteSufficesIff).
- A market from which no route leads to the debt costs nothing, and can be chosen over a routable one (Rover.UnroutableMarketWins, Rover.SwapBorrowSucceedsIff).
- The worker pool's successful return can lack results (PoolRuns.AnyLossHappens, PoolRuns.LossIff, PoolRuns.AllReturnedIff).
- Counting high breaches needs the marks in order (Scaling.HighLawIff).
- A comment says a low mark of zero never scales down; an empty queue still breaches it (Scaling.NeverScalesDownIff).
- `combineBalances` overwrites collaterals of the same denom (Redbank.CombineCanLose, Redbank.NothingLostIff).
- A key of 50 bytes or more that is not framed as a map key crashes the collector (Collector.UnframedKeyPanics, Collector.ParsePanicsIff).
- A service with a minimum that loses a container, or whose increase the daemon refuses, is never scaled again; one whose decrease is refused is not until a container exits (Scaling.DeathIsForGood, Scaling.RefusalUnsettles, Scaling.FrozenIff, Scaling.RecoversIff).

## Model

| member | source | states |
|---|---|---|
| RouteSearch.AMMRouter.GetRoutes | liquidator/src/amm_router.ts:114-116 | the routes the search function lists for the router's pools, in its order; the pools are untouched |
| RouteSearch.AMMRouter.BuildRoutesForTrade | liquidator/src/amm_router.ts:123-219 | appends to the shared array exactly what the search finds from this partial route, after what was there; terminates because each hop uses up a pool |
| RouteSearch.ClosingHopIsOriented | liquidator/src/amm_router.ts:161-176 | the two look-ups by denom that build a closing hop pick the leading assets, so it is oriented like any other hop |
| RouteSearch.ExtendingUsesAPool | liquidator/src/amm_router.ts:132-144 | each recursion leaves strictly fewer unused pools: the termination measure |
| RouteSearch.SearchIsExact | liquidator/src/amm_router.ts:123-219 | from any partial route, the search adds a route if and only if it extends it to a pool-distinct chain that closes as soon as it can |
| RouteSearch.GetRoutesIsExact | liquidator/src/amm_router.ts:114-219 | a route is listed if and only if every hop sells the denom held into an unused pool at that pool's own fee and oriented reserves, it ends in the target, and no hop but the last leaves from a denom that could still go straight to the target |
| RouteSearch.GetRoutesHasNoDuplicates | liquidator/src/amm_router.ts:114-219 | with unique pool ids no route is listed twice |
| RouteOrder.GetRoutesInOrder | liquidator/src/amm_router.ts:135-217 | of two listed routes the one listed first parts from the other, at the first hop where they differ, through a pool that stands earlier in the pool list |
| RouteOrder.EarlierOneWay | liquidator/src/amm_router.ts:135-217 | with unique ids that decides between any two routes, so the list is the only one in this order |
| Reachability.ShortestIsSimple | liquidator/src/amm_router.ts:135-217 | a shortest walk repeats no denom and meets a neighbour of the target only at its last step |
| Reachability.RouteGivesWalk | liquidator/src/amm_router.ts:135-217 | every listed route is a walk over pools from the first denom to the target |
| Reachability.RoutesIffReachable | liquidator/src/amm_router.ts:114-217 | for two different denoms the search finds something if and only if some walk over the pools, with any repetitions, leads to the target |
| Pricing.HopPays | liquidator/src/math.ts:14-17 | a hop's payout solves the constant-product equation after the fee |
| Pricing.HopQuotes | liquidator/src/math.ts:30-34 | a hop's quote solves the same equation for the input |
| Numbers.DifferenceOrders | liquidator/src/amm_router.ts:84-88 | the sign of a difference orders any two numbers, infinities included |
| Pricing.GetOutput | liquidator/src/amm_router.ts:32-52 | for any amount and any reserves, the fold over the hops, with the infinities and non-numbers that division by zero yields; zero for an empty route or a zero amount |
| Pricing.GetRequiredInput | liquidator/src/amm_router.ts:54-74 | likewise, in list order |
| Pricing.ReturnedIsOutput | liquidator/src/amm_router.ts:32-52 | over sound pools the fold is the exact real price |
| Pricing.QuoteIsRequired | liquidator/src/amm_router.ts:54-74 | where no hop is asked for exactly its reserve the quote is the exact real fold |
| Pricing.QuoteIsNumberIff | liquidator/src/amm_router.ts:54-74 | a quote over sound pools is a number if and only if no hop before the last is asked for exactly its reserve |
| Pricing.QuoteIsPositiveIff | liquidator/src/amm_router.ts:54-74 | with any fees, a quote is a positive number if and only if every hop is asked for less than its reserve, or for so much more that the fee on the excess outweighs its input reserve |
| Pricing.OutputIncreases | liquidator/src/amm_router.ts:40-51 | selling strictly more over any non-empty route returns strictly more |
| Pricing.OutputBelowLastReserve | liquidator/src/amm_router.ts:40-51 | a route pays strictly less than the last pool's reserve |
| Pricing.OutputSplits | liquidator/src/amm_router.ts:40-51 | two parts of a trade, each priced on untouched pools, return at least what the whole returns |
| Pricing.QuoteUndoesOutput | liquidator/src/amm_router.ts:32-74 | fee-free: quoting a route's output over the reversed route gives the input back, for any length |
| Pricing.OutputUndoesQuote | liquidator/src/amm_router.ts:32-74 | fee-free: what the reversed quote asks for buys the amount wanted, whenever every hop can fill it |
| Pricing.QuoteClosedForm | liquidator/src/amm_router.ts:54-74 | a fee-free list-order quote as one rational function of the amount, with the products of the reserves and one slope as coefficients |
| Pricing.ListOrderQuoteIsRightIff | liquidator/src/amm_router.ts:63-71 | fee-free: over an unreversed route the quote is right if and only if the route and its reverse have the same slope, whatever the amount |
| Pricing.TwoHopsCanClash | liquidator/src/amm_router.ts:63-71 | fee-free, two hops: right if and only if both pools' reserves differ by the same amount |
| Pricing.ListOrderQuoteCanBeWrong | liquidator/src/amm_router.ts:63-71 | two concrete pools for which the unreversed quote is wrong for every amount up to one |
| Pricing.QuoteSufficesIff | liquidator/src/amm_router.ts:40-71 | with a fee, the input quoted for any amount below the reserve buys that amount if and only if a bound on the pool holds that a caller can test first |
| Pricing.QuoteCanFallShort | liquidator/src/amm_router.ts:40-71 | one concrete pool whose quote for 10 buys less than 10 |
| Pricing.RouteQuoteSuffices | liquidator/src/amm_router.ts:32-74 | with fees, the reversed quote buys the amount over a route of any length if every hop meets that bound at the amount it is asked for |
| Pricing.RouteQuoteFallsShort | liquidator/src/amm_router.ts:32-74 | it buys less if no hop does |
| Pricing.BuysIff | liquidator/src/amm_router.ts:32-52 | with any fees, an input buys at least an amount if and only if the route can pay that amount and the input is at least what the route needs for it |
| Pricing.BuysExactlyIff | liquidator/src/amm_router.ts:32-52 | with any fees, it buys exactly the amount if and only if it is what the route needs: the inverse of getOutput |
| Pricing.RouteQuoteSufficesIff | liquidator/src/amm_router.ts:54-74 | with any fees and in either order, a quote that is a positive number suffices if and only if it is at least what the route needs, and is right if and only if it is that |
| Execution.SwapKeepsProduct | liquidator/src/math.ts:14-17 | a swap under the fee rule never lowers the product of a pool's reserves |
| Execution.PriceIsExecution | liquidator/src/amm_router.ts:32-52 | for every listed route the static price equals executing the hops against live pools; no product falls and unused pools are untouched |
| Execution.CoinsAreConserved | liquidator/src/amm_router.ts:32-52 | along any route no coin of any denom is made or lost between the pools and the trader |
| Sorting.SortSorts | liquidator/src/amm_router.ts:84-90 | under a total preorder the sort returns an ascending sequence |
| Sorting.SortPermutes | liquidator/src/amm_router.ts:84-90 | sorting keeps every element as often as it occurs, under any comparison |
| Sorting.PopIsLastGreatest | liquidator/src/amm_router.ts:84-90 | sort then pop selects the last, in original order, of the greatest elements |
| BestRoute.GetBestRouteGivenInput | liquidator/src/amm_router.ts:76-92 | the route popped from the sorted search result, empty if there is none |
| BestRoute.GetBestRouteGivenOutput | liquidator/src/amm_router.ts:94-112 | likewise by required input |
| BestRoute.BestGivenInputIsLastBest | liquidator/src/amm_router.ts:76-92 | the winner is the last route in search order among those that return most |
| BestRoute.BestGivenInputBreaksTies | liquidator/src/amm_router.ts:76-92 | every other route of the declared kind returns less than the winner, or as much and parts from it through a pool that stands earlier |
| BestRoute.BestGivenInputIsOptimal | liquidator/src/amm_router.ts:76-92 | no pool-distinct early-closing chain returns more, and the result is empty if and only if the target is unreachable |
| BestRoute.ComparableIff | liquidator/src/amm_router.ts:101-107 | over sound pools every listed route has a comparable quote if and only if none empties a pool before its last hop |
| BestRoute.BestGivenOutputIsDearest | liquidator/src/amm_router.ts:94-112 | the winner asks for the largest input of all listed routes, an infinite one if there is one |
| BestRoute.BestGivenOutputBreaksTies | liquidator/src/amm_router.ts:94-112 | every other route has a smaller quote than the winner, or as large and parts from it through a pool that stands earlier |
| BestRoute.BestGivenOutputIsCheapestIff | liquidator/src/amm_router.ts:94-112 | it is a cheapest route if and only if all listed routes cost the same |
| BestRoute.BestGivenOutputCanBeDear | liquidator/src/amm_router.ts:94-112 | two concrete pools where it costs twice what it need |
| WorkerPool.InitInv | health-checker/src/health-checker/pool.go:36-43 | the initial state satisfies the invariant |
| WorkerPool.StepKeepsInv | health-checker/src/health-checker/pool.go:9-70 | every step of generator, workers, closer and consumer keeps channels and counter in agreement, the result slice equal to what was received, and for every job the number of copies in all places |
| PoolRuns.NeverPanics | health-checker/src/health-checker/pool.go:9-70 | in every reachable state nothing was sent on a closed channel, no channel closed twice, and the counter never went below zero |
| PoolRuns.DoneMeansAllRanIff | health-checker/src/health-checker/pool.go:45-58 | once Done is closed every job ran exactly once if and only if there is a worker or nothing to do; at most one result per worker is uncollected |
| PoolRuns.SuccessLosesAtMostTheBuffer | health-checker/src/health-checker/health_checker.go:271-301 | a successful return holds the consumed results in order and lacks exactly those still buffered, at most one per worker |
| PoolRuns.AnyLossHappens | health-checker/src/health-checker/health_checker.go:296-298 | with workers, for any jobs with readable ids and any number up to the workers and the jobs, some run returns successfully with exactly the last so many results uncollected |
| PoolRuns.NoWorkersReturnNothing | health-checker/src/health-checker/health_checker.go:258-302 | without workers some run returns successfully with nothing |
| PoolRuns.LossIff | health-checker/src/health-checker/health_checker.go:271-301 | for jobs with readable ids, a successful return can lack k results if and only if k is at most the number of workers and of jobs, or without workers the number of jobs |
| PoolRuns.AllReturnedIff | health-checker/src/health-checker/health_checker.go:271-301 | for jobs with readable ids and any number of workers, every successful return holds all results if and only if there were no jobs |
| PoolRuns.ReturnedUsers | health-checker/src/health-checker/health_checker.go:281-298 | the users a successful return holds and those of the results left behind are together, as often, those of all jobs that did not fail |
| PoolRuns.ResultsCloseAfterDone | health-checker/src/health-checker/pool.go:55-57 | the results channel is closed only once Done is, and either only once all workers are gone |
| PoolRuns.OneWorkerKeepsOrder | health-checker/src/health-checker/pool.go:9-70 | with one worker the results arrive in the order of the jobs |
| PoolRuns.NeverReturnsFalse | health-checker/src/health-checker/health_checker.go:288-292 | jobs with readable ids never make the consumer give up |
| PoolRuns.StepLowersRank | health-checker/src/health-checker/pool.go:9-70 | each step that is not the consumer's default case lowers a rank |
| PoolRuns.RunsAreBounded | health-checker/src/health-checker/pool.go:9-70 | a run takes at most 5 steps a job, 2 a worker and 6 more that are not the default case |
| PoolRuns.NeverStuck | health-checker/src/health-checker/health_checker.go:271-301 | until the consumer returns some goroutine can take a step that is not the default case |
| PoolRuns.QuietMeansReturned | health-checker/src/health-checker/health_checker.go:271-301 | where only the default case is enabled, the consumer has returned |
| Decimals.ParseReadsDecimal | health-checker/src/health-checker/health_checker.go:288 | the decimal spelling of every number in int64 range is read back as that number, and every other one is refused |
| Decimals.DecimalShowsDigits | health-checker/src/health-checker/health_checker.go:123 | the decimal spelling shows the digit of each power of ten in its place and no leading zero |
| Batching.PiecesPartition | runtime/helpers/slice.go:5-22 | ceil(n/k) pieces concatenate to the input, none is empty, all but the last are full |
| Batching.ChunkSlice | runtime/helpers/slice.go:5-22 | the shrinking loop yields those pieces |
| Batching.Redis.PushMany | runtime/queue/redis.go:54-67 | either the whole list is appended, or exactly the batches before the first refused one; other lists are untouched |
| Batching.Redis.FetchMany | runtime/queue/redis.go:94-117 | the oldest items are handed out and the rest kept, in order; a failed call hands out nothing |
| Batching.GenerateJobs | health-checker/src/health-checker/health_checker.go:107-134 | ceil(n/k) jobs, job j carrying the j-th piece of the position list, with the outcome of fetching that piece and the decimal of its start as id |
| Batching.GeneratedJobsAreComplete | health-checker/src/health-checker/health_checker.go:107-134 | the jobs' arguments concatenate to the position list, none is empty or too long, all ids are readable |
| Batching.GeneratedJobsReturnUsers | health-checker/src/health-checker/health_checker.go:258-302 | the users of a lossless successful return are, as often, those that fetching each piece yields; in general those left behind make up the difference |
| Batching.GeneratedJobsNeverFail | health-checker/src/health-checker/health_checker.go:258-302 | no reachable state of a pool on generated jobs has the consumer giving up |
| Paging.SubmitPages | manager/src/manager/manager.go:261-301 | the pages queued while another routine changes the total: the accepted ones of m pages, where page m would have started beyond the total then seen; an index up to that total is covered if and only if the push of its page succeeded |
| Paging.SubmittedAre | manager/src/manager/manager.go:261-301 | the queue holds exactly the accepted multiples of the page size |
| Paging.SubmittedOnce | manager/src/manager/manager.go:261-301 | no page is queued twice |
| Paging.SubmittedInOrder | manager/src/manager/manager.go:261-301 | the pages are queued in the order of their offsets |
| Paging.EachIndexHasOnePage | manager/src/manager/manager.go:261-301 | an index is covered by at most one page, and by one if and only if the page it belongs to was reached and accepted |
| Paging.LastTotalIsCovered | manager/src/manager/manager.go:263 | an index up to the last total seen is covered if and only if its page was accepted |
| Rounding.RoundsWithinHalf | liquidator/src/redbank/executor.ts:119 | toFixed(0) on a non-negative amount is within half a unit, halves upward |
| Rounding.RoundsWithinHalfBelow | liquidator/src/redbank/executor.ts:119 | of a negative amount likewise, halves downward |
| Rounding.NeverAboveWholeBound | liquidator/src/rover/LiquidationActionGenerator.ts:60-62 | rounding never passes a whole upper bound |
| Redbank.Executor.ProduceLiquidationTxs | liquidator/src/redbank/executor.ts:79-145 | transaction i is for the position that has both lists non-empty and i such before it, and names its address and the denoms of its largest collateral and debt; its amount is that of the greedy allocation; each debt denom has one exact unrounded total; the value spent stays within balance times price less the margin, and within 1000 of it if anyone is skipped |
| Redbank.Market.GreedyIff | liquidator/src/redbank/executor.ts:92-142 | the allocation is the only one that serves a prefix of the eligible positions, each at what its predecessors left, and stops only when 1000 or less is left |
| Redbank.OnlyLastIsPartial | liquidator/src/redbank/executor.ts:103-133 | no position is paid more than its debt, only the last served can be paid less, the value spent stays within the budget and is all of it if the last is paid less, each was served while more than 1000 was left, and if anyone is skipped at most 1000 is left |
| Redbank.CoinsMatchTransactions | liquidator/src/redbank/executor.ts:301-302 | for every denom the coin rounded from the total equals the sum of the individually rounded transactions |
| Redbank.TransactionsStayWithinDebt | liquidator/src/redbank/executor.ts:110-120 | no rounded transaction exceeds the debt it is for or is negative |
| Redbank.StatedAdds | liquidator/src/redbank/executor.ts:301-302 | the amounts stated for a denom add up over the transactions that repay it, in any order |
| Redbank.CombineBalances | liquidator/src/redbank/executor.ts:384-406 | each denom ends with its last collateral entry plus all its balances |
| Redbank.LastCounts | liquidator/src/redbank/executor.ts:387-392 | of several collateral entries of a denom the last one counts |
| Redbank.SumAdds | liquidator/src/redbank/executor.ts:394-401 | the balances of a denom add up, in any order |
| Redbank.NothingLostIff | liquidator/src/redbank/executor.ts:384-401 | merging keeps every coin if and only if no collateral entry overwrites an earlier positive one of its denom |
| Redbank.CombineCanLose | liquidator/src/redbank/executor.ts:387-392 | two concrete collateral entries of which one is lost |
| Rover.LiquidationActionGenerator.ProduceBorrowActions | liquidator/src/rover/LiquidationActionGenerator.ts:35-65 | the borrow actions specified: direct, scaled down, or through another market |
| Rover.LiquidationActionGenerator.BorrowWithoutLiquidity | liquidator/src/rover/LiquidationActionGenerator.ts:78-166 | one borrow from the market sorted last, then one swap for each hop of its route, or the right error |
| Rover.LiquidationActionGenerator.GenerateSwapActions | liquidator/src/rover/LiquidationActionGenerator.ts:180-196 | one swap for each hop of the chosen route, at the slippage limit configured or the default, or the error for no route |
| Rover.Comparison.ComparatorPreorders | liquidator/src/rover/LiquidationActionGenerator.ts:87-130 | the comparator, infinite quotes included, is a total preorder among markets whose quotes are numbers and that never divide zero by zero |
| Rover.Comparison.CandidatesInOrder | liquidator/src/rover/LiquidationActionGenerator.ts:85-86 | candidates keep the order of the markets |
| Rover.Comparison.ChosenMarketIs | liquidator/src/rover/LiquidationActionGenerator.ts:85-133 | the market chosen, ties included: of the candidates quoted below 99 percent of their liquidity the last of the costliest, and if there is none the last of those whose liquidity is the largest share of the quote |
| Rover.Comparison.BestSufficesAndIsCostliest | liquidator/src/rover/LiquidationActionGenerator.ts:85-133 | if any candidate has enough liquidity the chosen one has, and it is the costliest of those |
| Rover.Comparison.BestIsCheapestIff | liquidator/src/rover/LiquidationActionGenerator.ts:127-130 | it is the cheapest of them if and only if they all cost the same |
| Rover.CostliestMarketIsChosen | liquidator/src/rover/LiquidationActionGenerator.ts:127-130 | two concrete markets where the one at twice the price is chosen |
| Rover.RepayWithinCollateral | liquidator/src/rover/LiquidationActionGenerator.ts:36-43 | the repayment is at most the debt and worth at most collateral value times close factor |
| Rover.RepayIsGreatest | liquidator/src/rover/LiquidationActionGenerator.ts:36-43 | no greater amount is at most the debt and worth at most collateral value times close factor |
| Rover.FoundIsFirst | liquidator/src/rover/LiquidationActionGenerator.ts:50 | the market asked is the first listed for the debt's denom |
| Rover.BorrowActionsAre | liquidator/src/rover/LiquidationActionGenerator.ts:50-64 | where that market is enabled and holds at least half of the repayment, exactly the repayment is borrowed if it holds it and 99 percent of what it holds otherwise, rounded; else the rounded repayment is borrowed through another market |
| Rover.SafeBorrowCases | liquidator/src/rover/LiquidationActionGenerator.ts:140-151 | a borrow to be swapped is the rounded quote, or 99 percent of the liquidity where the quote exceeds that |
| Rover.DirectBorrowIsBacked | liquidator/src/rover/LiquidationActionGenerator.ts:60-64 | the direct borrow stays within the market's liquidity, and its unrounded value within what the collateral backs |
| Rover.OverfullMarketLooksSufficient | liquidator/src/rover/LiquidationActionGenerator.ts:106-111 | a concrete market asked for more than its pool holds is quoted a negative input, passes for sufficient, and would be borrowed from a negative amount |
| Rover.OverfullMarketCanLendLittle | liquidator/src/rover/LiquidationActionGenerator.ts:106-111 | a concrete market with a fee, asked for still more, is quoted a positive input far too small and passes for sufficient |
| Rover.EmptiedMarketIsInsufficient | liquidator/src/rover/LiquidationActionGenerator.ts:106-111 | a market asked for all that its pool holds is insufficient, whatever its liquidity |
| Rover.SwapBorrowIsPositive | liquidator/src/rover/LiquidationActionGenerator.ts:140-151 | with any fees, the quote behind a borrow to be swapped is positive if and only if every hop bears what it is asked for; the borrow is positive if and only if the quote rounds to something and the market holds something |
| Rover.UnroutableLooksFree | liquidator/src/rover/LiquidationActionGenerator.ts:99-111 | a market without a route costs nothing and passes for sufficient as soon as it holds anything |
| Rover.SwapBorrowSucceedsIff | liquidator/src/rover/LiquidationActionGenerator.ts:85-137 | for live candidates whose routes have positive quotes, actions are generated if and only if there is a candidate and either a routable one is sufficient or all are routable |
| Rover.UnroutableMarketWins | liquidator/src/rover/LiquidationActionGenerator.ts:135-137 | two concrete markets where the one without a route is chosen over the one with, and the error for no route results |
| Rover.BorrowNeverExceedsLiquidity | liquidator/src/rover/LiquidationActionGenerator.ts:35-166 | on every path the one borrow comes first and asks an enabled listed market for no more than it can lend |
| Rover.SwapsCarryEverything | liquidator/src/rover/LiquidationActionGenerator.ts:154-163 | swapping whole balances along any chain moves everything from its first denom to its last, revisits included, at any rates |
| Rover.BorrowActionsEndInDebtDenom | liquidator/src/rover/LiquidationActionGenerator.ts:35-166 | run on an empty account the actions leave every non-zero balance in the debt denom |
| Rover.SwapActionsEndInDebtDenom | liquidator/src/rover/LiquidationActionGenerator.ts:180-196 | run on an account that holds only the collateral won they leave only the debt denom |
| Collector.HexReadsBigEndian | collector/src/collector/collector.go:198-199 | printing bytes in hexadecimal and parsing them gives their big-endian value |
| Collector.ContainsIff | collector/src/collector/collector.go:224 | a map name is wanted if and only if it stands somewhere in the prefix |
| Collector.ParseInvertsEncode | collector/src/collector/collector.go:178-245 | the parser yields an entry if and only if the key is the length-prefixed encoding of it, has at least 50 bytes, and its map is wanted |
| Collector.ParsePanicsIff | collector/src/collector/collector.go:198-245 | the exact keys on which slicing runs out of bounds |
| Collector.UnframedKeyPanics | collector/src/collector/collector.go:198-213 | one concrete key of 50 bytes on which it does |
| Collector.Reader.StoredIsAccepted | collector/src/collector/collector.go:178-275 | state written from records reads back as those records, in order |
| Collector.FetchContractItems | collector/src/collector/collector.go:178-302 | it crashes if and only if some key runs out of bounds; otherwise it counts every model scanned and returns, one by one, the encodings of one item for each address accepted, whose debts and collaterals are that address's records in scan order |
| Collector.GroupedGrows | collector/src/collector/collector.go:255-283 | one more record changes its own account only |
| Collector.MapNames | collector/src/collector/collector.go:275-282 | the two map names are spelt debts and collaterals |
| Collector.AcceptedInOrder | collector/src/collector/collector.go:178-253 | the i-th record is read from the model that parses and decodes with i such before it, field by field |
| Collector.DebtsInOrder | collector/src/collector/collector.go:275-280 | each debt record stands in its account's item, denom and amount, at the place that earlier such records leave it |
| Collector.CollateralInOrder | collector/src/collector/collector.go:282-287 | likewise each collateral record |
| Collector.AssetsMatchRecords | collector/src/collector/collector.go:255-302 | over all items there is one asset for each debt or collateral record, whatever order the map yields |
| Deployer.ConfusedIff | manager/src/deployer/docker.go:193-224 | an instance of one service can be counted as another's if and only if the other name is a prefix of it, or runs past it into something a uuid can begin with |
| Deployer.ManagedNamesAreApart | manager/src/main.go:147-181 | the three names the manager deploys under do not |
| Deployer.ServicesInOrder | manager/src/deployer/docker.go:208-224 | the containers of a service keep the order of the daemon's list |
| Deployer.Docker.Increase | manager/src/deployer/docker.go:62-112 | refused while deploying; otherwise one more requested, and one more running if the daemon creates it, named after the service and a fresh uuid, even if it then fails to start; no other service or container changed |
| Deployer.Docker.Decrease | manager/src/deployer/docker.go:115-154 | refused while deploying or without a list; otherwise one less requested, and the first container of the service removed if the daemon does so, and nothing else |
| Deployer.Docker.RemoveAll | manager/src/deployer/docker.go:157-185 | none requested, the containers of the service removed up to the first failure, and nothing else |
| Deployer.Docker.InstanceExits | manager/src/deployer/docker.go:75-88 | a container that exits leaves the list while what is requested stays |
| Scaling.CountersStayLow | manager/src/scaler/queue_watermark.go:123-159 | both counters stay below ten over any run |
| Scaling.LowBreachesAreCounted | manager/src/scaler/queue_watermark.go:123-139 | over any run low breaches are ten times the scale-downs tried plus the counter |
| Scaling.HighLawIff | manager/src/scaler/queue_watermark.go:142-159 | high breaches are ten times the queue-driven scale-ups plus the counter, over every run, if and only if the low mark is below the high mark |
| Scaling.NeverScalesDownIff | manager/src/scaler/queue_watermark.go:115-139 | over all runs with no negative queue length the scaler never tries to scale down if and only if its low mark is negative |
| Scaling.GapIsUnmet | manager/src/scaler/queue_watermark.go:87-185 | over any run of checks and exits, whatever the daemon refuses, requested minus running changes by exactly the refusals and the exits |
| Scaling.InStepIff | manager/src/scaler/queue_watermark.go:87-185 | a service that starts in step is in step after such a run if and only if refusals and exits cancel out |
| Scaling.VerdictsAreRequested | manager/src/scaler/queue_watermark.go:87-185 | over any run, whatever fails or exits, what is requested changes by exactly the verdicts to grow less those to shrink given while more than nothing and the minimum could be seen to run |
| Scaling.VerdictsAreCarriedOut | manager/src/scaler/queue_watermark.go:87-185 | with a working daemon and a service in step what runs changes by exactly that |
| Scaling.ReportsAreTrue | manager/src/scaler/queue_watermark.go:87-163 | the direction reported is the one in which what is requested moves, and an increase without error has one more running |
| Scaling.StaysInStep | manager/src/scaler/queue_watermark.go:87-163 | with a daemon that works, requested equals running after every check of a service that starts so |
| Scaling.StuckWhileListingIff | manager/src/scaler/queue_watermark.go:90-93 | no run of checks that can list changes a service or its counters if and only if it is out of step |
| Scaling.StuckIff | manager/src/scaler/queue_watermark.go:90-104 | no run of checks at all does if and only if it is out of step and has a minimum |
| Scaling.FrozenIff | manager/src/scaler/queue_watermark.go:87-185 | no run of checks and exits ever scales a service or counts a breach if and only if it has a minimum and fewer run than are requested, or a negative number is |
| Scaling.RefusalUnsettles | manager/src/deployer/docker.go:67-154 | one refused request puts a service out of step: a refused increase leaves one with a minimum short, a refused decrease is made good by one exit |
| Scaling.DeathIsForGood | manager/src/scaler/queue_watermark.go:90-104 | a service at or below its minimum that loses one instance is below its minimum after every run of checks and exits |
| Scaling.RecoversIff | manager/src/scaler/queue_watermark.go:90-104 | given as many checks with a working daemon as it lacks instances a service is back at its minimum if and only if it is in step or was not below |
| Scaling.ClimbsToMinimum | manager/src/scaler/queue_watermark.go:96-104 | below its minimum a service in step gains one instance a check, whatever the queue holds |
| Scaling.MinimumIsMetIff | manager/src/scaler/queue_watermark.go:96-104 | after n checks of a service in step the minimum is met if and only if the shortfall was at most n |
| Scaling.NeverDropsBelow | manager/src/scaler/queue_watermark.go:171-185 | checks never scale a service at or above its minimum below it, whatever fails |
| Scaling.QueueWatermark.New | manager/src/scaler/queue_watermark.go:40-82 | refused without a queue, a queue name, a deployer or a high mark, otherwise fresh with both counters at zero |
| Scaling.QueueWatermark.ScaleAutomatic | manager/src/scaler/queue_watermark.go:87-163 | one check moves the scaler, the requested and the running count as specified for the queue's length and for what the daemon does or refuses, reports the verdict, and disturbs no other service |
| Scaling.QueueWatermark.CheckWatermarks | manager/src/scaler/queue_watermark.go:123-163 | the part of a check that compares the queue with the marks |
| Scaling.QueueWatermark.ScaleUp | manager/src/scaler/queue_watermark.go:166-168 | one more instance unless deploying |
| Scaling.QueueWatermark.ScaleDown | manager/src/scaler/queue_watermark.go:171-185 | one instance fewer unless that would pass the minimum |
| Scaling.QueueWatermark.ScaleToZero | manager/src/scaler/queue_watermark.go:188-192 | the minimum is dropped and everything of this service removed, up to the first failure |
| Scaling.QueueWatermark.LosesInstance | manager/src/deployer/docker.go:75-88 | an exiting container leaves the scaler and the requested count as they are, one fewer running |
| Scaling.ScaleRound | manager/src/manager/manager.go:227-242 | in one round over services that share a daemon each checked one ends as if alone and each unchecked one as it was |
| LiquidationResults.LiquidationHelper.ParseLiquidationResultInner | liquidator/src/liquidationHelpers.ts:30-74 | one result for each run of attributes that ends in a debt amount, each field the last value under its key in that run |
| LiquidationResults.LiquidationHelper.ParseLiquidationResult | liquidator/src/liquidationHelpers.ts:17-28 | the results of the wasm events, end to end |
| LiquidationResults.SplitIsExact | liquidator/src/liquidationHelpers.ts:40-71 | attributes fall into runs and a remainder in exactly one way, the way they are read |
| LiquidationResults.LastValueIff | liquidator/src/liquidationHelpers.ts:43-57 | what a field holds, without reference to the reading order |
| LiquidationResults.PrintedIsParsed | liquidator/src/liquidationHelpers.ts:30-74 | results printed with the debt amount last, the other keys in any order and anything unrelated between or after, parse back to the same list |
| LiquidationResults.ParsesApartIff | liquidator/src/liquidationHelpers.ts:58-69 | two runs of attributes parse separately, whatever the second is, if and only if the first leaves only blanks behind |
| LiquidationResults.EventsParseApart | liquidator/src/liquidationHelpers.ts:17-28 | the lists that the wasm events of a transaction print come back end to end |

## Left out

- Pricing.GetOutput: rounding of BigNumber quotients to 20 decimals and the sign of zero are not modelled; results about exact prices are for positive reserves and fees in [0, 1).
- Pricing.OutputUndoesQuote: both round trips are for fee-free routes, the only ones for which they hold in general; Pricing.BuysExactlyIff gives the inverse with fees, and Pricing.RouteQuoteSufficesIff says when a quote is it.
- Pricing.ListOrderQuoteIsRightIff: for fee-free routes, like Pricing.TwoHopsCanClash; Pricing.RouteQuoteSufficesIff decides quotes in list order with any fees.
- BestRoute.BestGivenOutputIsDearest: for quotes that are numbers, finite or not; what sort does with a comparison of non-numbers is left to the engine.
- RouteSearch.GetRoutesHasNoDuplicates: pool ids are values; ids held as Long objects and compared by identity after a JSON clone are not modelled.
- Sorting.PopIsLastGreatest: sort is stable and ascending; what an engine does with a comparison that is no total preorder is not modelled, so results about rover markets exclude those whose quote is no number and those with neither liquidity nor a price.
- Rover.BorrowActionsEndInDebtDenom: what a swap pays is an arbitrary function; failing swaps are not modelled.
- Redbank.Executor.ProduceLiquidationTxs: the largest debt and collateral are any member of the list, since their comparator leaves out the second price; the chosen debt has a price, and no negative one.
- PoolRuns.LossIff: for jobs with readable ids, the only ones that generateJobs makes; what can be lost beside an unreadable id depends on the order of the results.
- WorkerPool.StepKeepsInv: a result is identified with its job, and each job's outcome is fixed in advance; cancellation happens only after the consumer has returned, and what the abandoned goroutines do then is not modelled.
- Batching.Redis.PushMany: a refused RPUSH leaves the list as it was; a reply lost after the server applied it is not modelled.
- Batching.GenerateJobs: minimum by way of float64, exact below 2^53 positions, is an integer minimum.
- Paging.SubmitPages: packet size is positive and totals stay a packet below 2^64; beyond that the source's index wraps.
- Collector.FetchContractItems: decoding a JSON value and encoding an item are parameters; ParseInt is modelled on unsigned numerals, the only ones it is given.
- Deployer.Docker.Increase: image and environment of the container do not enter the model. The daemon places a new container anywhere in its list; between two calls anyone may change what it is good for.
- Scaling.QueueWatermark.ScaleAutomatic: during one check the daemon either lists containers or does not, and whether the queue answers is a parameter.
- Scaling.ScaleRound: the map of scalers is visited in the order of a sequence, whichever it is.
- Network and storage clients, the AWS deployer, wallets, CSV output, configuration and logging: foreign calls without algorithms.
- `produceUnhealthyPositions`, `generateRepayActions`, `produceLiquidationAction` and the swap message builders of the executor: a filter and plain constructors, only easy members.
- `calculateSlippageBp`: unused, and it compares a price with an amount.
- Loading pools page by page: its termination rests on the server.
