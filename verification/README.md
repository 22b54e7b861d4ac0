# papertrade-india: a verified model of the simulated broker

papertrade-india is a paper-trading broker for Indian equities. It keeps an account in SQLite
(orders, trades, positions, a cash ledger), fills orders against quotes, runs a pre-open call auction
and a background watcher, and settles delivery trades on T+1. This project models those parts in
Dafny 4.11 and proves what they promise over every input, every reachable account and every
interleaving of transactions.

`dafny verify dfyconfig.toml` checks everything. Money and prices are exact `real`s; settlement and
book sizes are whole shares.

## How it is organised

- **The account.** `Store` holds the tables as one value `Db` and each transaction as a function that
  commits a new `Db` or rolls back. `Account.Broker` is the mutable account itself, one method per
  transaction, each proved equal to its function, rollback included. `Books`, `Value` and `Runs` prove
  when the four stores agree, that cash is what the trades with their fees make it, and that value is
  conserved over every run; `Frozen` that closed orders are final; `Brackets` when a bracket's children
  close no more than the parent opened, with `StaleReadings` the runs in which they do; `LimitProtection`
  that no limit order ever pays worse than its limit.
- **The watcher.** `Watcher` holds single fills and the matching pass: stops before limits, gated
  children, re-pulled rows, after-market orders. `OpeningAuction` collects, matches and applies the
  auctions. `Session` is the tick with its once-a-day hooks, and whole sessions of ticks between
  requests. Every method is proved to be a *trail*: a run of up-to-date, gated, limit-respecting
  transactions, so `Session.TrailsStayInOrder` applies to whatever any number of ticks did.
  `MatchingRules` then says which orders a pass acts on and at what price, every comparison written out,
  `AuctionTrades` what an auction leaves in the trade table, and `DailyHooks` which ticks run the opening
  hooks and expire the day's orders.
- **Pricing and charging.** `Auction` (call auction), `OrderBook`, `BookSynthesis` and `BookImpact`
  (level-two book and the price a market order takes from it), `Ticks`, `Slippage`, `Fees` and
  `FeeSchedules`, `PartialFills`, `Slicing`.
- **Around it.** `Breaker` (circuit breaker), `Consensus` (median of several providers), `Settlement`
  (T+1), `Calendar` (session phases and the next opening).

## What the code does not keep, and exactly when it does

- A fill works from a row its caller read, and its guard tests only the row's status. With several
  threads the reading may be old.
  - Orders and trades agree throughout a run exactly when every limit slice that traded had the row's
    fill figures (`Runs.OrdersAgreeAlongIff`). Market fills and triggers may be as stale as they like.
  - Brackets are safe throughout exactly when every stop that filled was read with a quantity still
    uncovered (`Brackets.BracketsSafeIffStopsFit`). Slices of targets cannot spoil the rows, but a stale
    one hides shares from them, so the bound on traded shares needs both conditions; and it leaves the
    stop short exactly when it sets the target back (`Brackets.StopsExactIffNoneSetBack`).
  - `StaleReadings` gives a run from opening for each failure, and `Brackets.DrivenRuns` shows that rows
    read when their transaction runs meet both.
  - Limits, cash against ledger and trades, value conservation and finality of closed orders need neither.
- The watcher's methods assume no other thread writes between its read and its fill; that is what makes
  its snapshots current.
- A sale that leaves at most 1e-9 of a share drops the remainder with its cost. Value is conserved over a
  run, and without corporate actions positions equal their net traded quantity, exactly when no sale
  that traded did so (`Runs.ValueConservedIff`, `Runs.PositionsAgreeIffDustFree`).
- The auction is first-in-first-out among eligible orders, not price priority, although its notes also
  say "all-or-nothing" and "pro-rata": the code does neither, and may leave a crossed book
  (`Auction.ResidualCrossedIff`). Its documented second rule, least imbalance among all prices with the
  maximum volume, fails only when buyers and sellers balance strictly between two neighbouring limits
  (`Auction.ImbalanceRuleHoldsIff`). The matched volume a round reports counts both sides of each share.
- A market order that cannot be priced from a book pays the last price, although the helper's comment
  promises the slippage price; one larger than its side of the book is priced throughout at the average
  of the part that filled, since the walk's report of a short fill is not looked at. `BookImpact` has
  the exact conditions.
- Deliverability is checked when a sale is submitted and not again when a resting order fills.
- Day expiry looks for the pending status alone, so a partially filled DAY order survives the day
  (`Frozen.ExpiryEndsTheDayIff`). And the watcher runs it once a date, on the first tick out of hours,
  which on a trading day may be before 09:00 or between pre-open and the opening; then the close
  expires nothing. It does exactly when the watcher never ticked at such a time that day
  (`DailyHooks.TheCloseExpiresIff`, `DailyHooks.DayIsClosedIff`).
- A triggered stop-limit does not wait for the next pass, as the note on it says: the pass that triggers it
  pulls the limit orders again and may fill it at once (`MatchingRules.TriggeredStopLimitIsWorked`).
- Brokerage without a cap is the percentage of turnover where one is set, although the note on the
  configuration says it is then the flat fee (`Fees.BrokerageTerms`).
- A provider call that returns nothing records nothing with the breaker, so a half-open breaker whose
  probe returns nothing stays shut.

## Model

| member | source | states |
|---|---|---|
| Auction.ComputeEquilibrium | src/papertrade_india/orders/preopen.py:109-179 | the result is an equilibrium: no match at all, or a limit price that no other beats on volume, imbalance, proximity and price, with both sides allocated in turn |
| Auction.BestScore | src/papertrade_india/orders/preopen.py:126-140 | the candidate loop returns a score of a candidate with positive volume that no candidate beats, or none has volume |
| Auction.Allocate | src/papertrade_india/orders/preopen.py:159-173 | one side's loop appends exactly the first-in-first-out fills |
| Auction.MaximumVolume | src/papertrade_india/orders/preopen.py:16-17 | over every real price and every balanced allocation within limits and quantities, no more shares trade than the auction matched |
| Auction.EveryPriceTradesAtMost | src/papertrade_india/orders/preopen.py:119-145 | trying limit prices alone loses no volume: no price executes more |
| Auction.AddingABuyNeverHurts | src/papertrade_india/orders/preopen.py:126-145 | one more buy, anywhere in the book, never lowers matched volume |
| Auction.AddingASellNeverHurts | src/papertrade_india/orders/preopen.py:126-145 | one more sell never lowers matched volume |
| Auction.MatchesExactlyWhenCrossed | src/papertrade_india/orders/preopen.py:109-116 | with positive quantities a match exists if and only if some buy limit reaches some sell limit |
| Auction.ClearingPriceIsUnique | src/papertrade_india/orders/preopen.py:121-140 | the book and the reference determine the clearing price; the score leaves no ties |
| Auction.ClearsNearestTheReference | src/papertrade_india/orders/preopen.py:119-145 | no limit price trades more than the clearing price; of those that trade as much none leaves a smaller surplus; of those none is nearer the reference given, or without one the midpoint of the highest buy and the lowest sell limit; of those as near none is higher |
| Auction.ReferenceDecides | src/papertrade_india/orders/preopen.py:121-140 | a book that trades ten at 10 and at 12 clears at 10 for a reference of 10, and at 12 without one |
| Auction.SortBySeqExact | src/papertrade_india/orders/preopen.py:150-157 | the submission sort keeps the rows, orders them by stamp, and leaves equal stamps in book order |
| Auction.SideFillsExact | src/papertrade_india/orders/preopen.py:159-173 | one side's fills add up to the volume and serve its willing orders in turn, at most the last in part |
| Auction.AllocationBalances | src/papertrade_india/orders/preopen.py:147-179 | buy fills and sell fills each sum to exactly the matched volume and are first-in-first-out prefixes |
| Auction.BothSidesCounted | src/papertrade_india/orders/preopen.py:147-179 | the fill list of a match, buys and sells together, totals twice the matched volume |
| Auction.ImbalanceRuleHoldsIff | src/papertrade_india/orders/preopen.py:18-19 | the clearing price has least imbalance over all maximum-volume prices if and only if it leaves nothing over or buyers and sellers balance in no gap between neighbouring limits |
| Auction.ImbalanceRuleCanFail | src/papertrade_india/orders/preopen.py:118-140 | a four-order book whose clearing price is beaten on imbalance by a price nobody quoted |
| Auction.LeftoverIsUnfilled | src/papertrade_india/orders/preopen.py:159-173 | what a side is left with is each order less its fill |
| Auction.ResidualCrossedIff | src/papertrade_india/orders/preopen.py:32-37 | the book left after the auction is crossed if and only if, in the book before it, some willing order whose queue up to and including it wants more than the volume reaches an unwilling order of the other side |
| Auction.ResidualCanBeCrossed | src/papertrade_india/orders/preopen.py:150-173 | a four-order book that clears at 11 and leaves a buyer at 10 facing a seller at 9 |
| OpeningAuction.CollectBook | src/papertrade_india/orders/preopen.py:208-243 | one side of a symbol's book is its pending, parentless DAY and GTT limit orders, each once, all of them |
| OpeningAuction.ApplyFills | src/papertrade_india/orders/preopen.py:253-268 | each fill in turn is one transaction on its order as it then stands; those that commit are reported, one whose order closed is skipped, and the run stops at the first other failure or refused price and for no other reason; other symbols are untouched |
| OpeningAuction.RunAuction | src/papertrade_india/orders/preopen.py:225-268 | the books are exactly the symbol's auction orders, the match is an equilibrium of them, and its fills are taken in turn |
| OpeningAuction.RunAllAuctions | src/papertrade_india/orders/preopen.py:201-274 | one auction after another, as the symbols' oldest orders were submitted and each from the tables the last one left, for every symbol with an auction order, once, and for no other, unless one aborts; the reported total is the sum of the applied fills |
| OpeningAuction.MatchedCountsBothSides | src/papertrade_india/orders/preopen.py:253-274 | that total is at most twice the volume the auctions cleared, and twice it when every fill lands |
| AuctionTrades.AuctionTradesAtOnePrice | src/papertrade_india/orders/preopen.py:225-268 | an auction trades its landed fills, one trade each for the quantity of the fill, and nothing else; each is of a pending, parentless DAY or GTT limit order of the symbol; with slippage on limit orders off every trade, on both sides, is at the clearing price |
| AuctionTrades.EarlierOrdersFirst | src/papertrade_india/orders/preopen.py:150-173 | if the auction gives a later order of a side anything, every earlier order of that side whose limit admits the clearing price gets all it wants |
| AuctionTrades.AuctionBalancesTrades | src/papertrade_india/orders/preopen.py:253-268 | an auction in which every fill lands leaves as many shares bought as sold in the trade table |
| AuctionTrades.ClearsNearestTheLivePrice | src/papertrade_india/orders/preopen.py:245-250 | of the limit prices that trade as much and leave as little over, the auction of a symbol takes the nearest to its live price, or to the midpoint when there is none, and the higher of two as near |
| Account.Broker.constructor | src/papertrade_india/broker.py:235-262 | a new account is the opening capital with its one ledger row |
| Account.Broker.ApplyBuy | src/papertrade_india/orders/state.py:234-319 | debits cash, writes principal and fee rows, re-averages the position, or reports insufficient funds |
| Account.Broker.ApplySell | src/papertrade_india/orders/state.py:322-401 | credits cash and realized P&L, shrinks or drops the position, or reports insufficient shares |
| Account.Broker.ExecuteMarket | src/papertrade_india/orders/market.py:54-80 | one transaction that leaves a filled order with its trade, or changes nothing |
| Account.Broker.FillLimit | src/papertrade_india/orders/limit.py:105-183 | claim, leg, P&L and bracket hooks of a slice, all or nothing, under the status guard |
| Account.Broker.FillPendingMarket | src/papertrade_india/orders/market.py:126-202 | the whole fill of a still pending row, sibling cancellation included, or no change |
| Account.Broker.TriggerStop | src/papertrade_india/orders/stop.py:72-122 | marks a pending stop-market, turns a pending stop-limit into a limit order, leaves any other status alone |
| Account.Broker.CancelOrder | src/papertrade_india/orders/state.py:407-454 | cancels an open order and its open children, and says whether it did |
| Account.Broker.ExpireDayOrders | src/papertrade_india/orders/state.py:467-496 | pending DAY rows become expired |
| Account.Broker.QueueOrder | src/papertrade_india/orders/limit.py:31-72 | a pending row, or an error and no change |
| Account.Broker.QueueBracket | src/papertrade_india/orders/bracket.py:24-115 | parent, stop and target rows together, or none of them |
| Account.Broker.ApplySplit | src/papertrade_india/corporate_actions/splits.py:23-111 | rescales the position by the ratio |
| Account.Broker.ApplyBonus | src/papertrade_india/corporate_actions/bonus.py:22-105 | rescales the position by (num + den):den |
| Account.Broker.ApplyRights | src/papertrade_india/corporate_actions/rights.py:25-189 | debits the subscription and spreads it over the larger position, or refuses |
| Account.Broker.ApplyDividend | src/papertrade_india/corporate_actions/dividends.py:25-99 | credits the holding's dividend with its ledger row |
| Books.NextKeepsHoldings | src/papertrade_india/orders/state.py:234-401 | cash stays non-negative and every position positive in quantity and cost, on stale snapshots too |
| Books.TradesIff | src/papertrade_india/orders/limit.py:105-160 | which transactions trade: a slice of an open order, a market fill of a row read pending and pending still, a new market order, each if and only if it is for something and the buyer has cash for price and fees or the seller holds the shares and covers the fees |
| Books.LimitFillAgreesIffUpToDate | src/papertrade_india/orders/limit.py:119-142 | a committed slice from an arbitrary snapshot keeps orders and trades in agreement if and only if the snapshot's fill figures are the row's |
| Books.OrdersAgreeNextIff | src/papertrade_india/orders/limit.py:116-168 | on any snapshot a transaction keeps each order's quantity, fees, P&L and notional equal to the sums over its trades if and only if it is no trading slice whose fill figures are out of date; market fills and triggers keep it on every snapshot |
| Books.PositionsAgreeNextIff | src/papertrade_india/orders/state.py:290-396 | every transaction but a corporate action keeps each position equal to its net traded quantity if and only if it is no trading sale that drops dust |
| Books.CashTradedNext | src/papertrade_india/orders/state.py:256-401 | every transaction, on any snapshot, keeps cash at capital plus what trades took and brought in with their fees, dividends and subscriptions, and each order's ledger rows, reason by reason and together, at what its own trades took and brought in |
| Runs.OrdersAgreeAlongIff | src/papertrade_india/orders/limit.py:105-168 | over any run on any snapshots, orders and trades agree throughout if and only if every slice that traded was up to date |
| Runs.FourStoresAgree | src/papertrade_india/orders/state.py:234-401 | after every run from opening, on any snapshots: cash equals the ledger; cash is the opening capital less price and fees of every buy plus price less fees of every sale plus dividends and subscriptions, and each order's ledger rows are that over its own trades; realized P&L equals the trades', orders their trades exactly when slices were up to date, and without corporate actions positions the net traded quantity exactly when no dust was dropped |
| Runs.PositionsAgreeIffDustFree | src/papertrade_india/orders/state.py:387-396 | over any run without corporate actions positions end equal to their net traded quantity if and only if no trading sale dropped dust |
| Runs.MoneyAgreesAlways | src/papertrade_india/infrastructure/ledger.py:134-141 | cash equals the ledger sum and realized P&L the trades' after any run at all, stale snapshots included |
| Runs.StaleSnapshotExample | src/papertrade_india/orders/limit.py:125-142 | two fills from one snapshot trade eight shares on an order that then says four |
| Runs.ValueConservedIff | src/papertrade_india/orders/state.py:256-401 | after any run from opening cash plus holdings at cost is at most opening capital plus realized P&L plus dividends, and equal to it if and only if no trading sale dropped dust; so with a flat account's realized P&L |
| Runs.DustSaleLosesValue | src/papertrade_india/orders/state.py:387-393 | a buy and a sale from opening after which value is lost and a position disagrees with its trades |
| Value.BuyConserves | src/papertrade_india/orders/state.py:256-319 | a buy turns cash into cost basis and leaves net value alone, fees included |
| Value.SellEffect | src/papertrade_india/orders/state.py:354-401 | a sale changes net value by nothing but the cost of a dropped remainder |
| Value.SellConservesIffNoSliver | src/papertrade_india/orders/state.py:387-393 | a sale conserves value if and only if it leaves no remainder of at most 1e-9 shares |
| Value.LostNext | src/papertrade_india/orders/state.py:234-401 | no transaction of any kind brings lost value back, and one loses some if and only if it is a trading sale that drops dust |
| Value.RescaleConserves | src/papertrade_india/corporate_actions/splits.py:79-87 | splits and bonuses leave the cost basis unchanged |
| Value.RightsConserve | src/papertrade_india/corporate_actions/rights.py:128-162 | a subscription adds to basis exactly the cash it debits |
| Value.SplitScales | src/papertrade_india/corporate_actions/splits.py:79-87 | every den shares become num, each at den/num of its cost |
| Value.SplitUndone | src/papertrade_india/corporate_actions/splits.py:79-87 | the reverse split restores the account exactly |
| Value.BonusIsSplit | src/papertrade_india/corporate_actions/bonus.py:22-105 | a num:den bonus is a (num + den):den split |
| Value.EntitlementExact | src/papertrade_india/corporate_actions/rights.py:128-162 | rights come in whole shares, as many as the ratio allows and not one more |
| Value.RightsTerms | src/papertrade_india/corporate_actions/rights.py:101-162 | a subscriber gets just the whole shares on offer, the offer price of each goes from cash to a ledger row and into the holding's cost, and one who cannot pay is refused |
| Value.DividendPaysPerShare | src/papertrade_india/corporate_actions/dividends.py:52-77 | a dividend credits cash and ledger with its rate on every share held and moves nothing else |
| Value.DividendFollowsSplit | src/papertrade_india/corporate_actions/splits.py:79-87 | after a split a dividend at the inverse rate pays what it would have paid before |
| Frozen.TerminalOrdersAreFinal | src/papertrade_india/orders/limit.py:125-142 | a filled, cancelled or expired order keeps its row, and no cash or trade is booked for it, through any run on any stale snapshots |
| Frozen.CancelledBracketNeverTradesAgain | src/papertrade_india/orders/state.py:407-454 | after a cancel neither the order nor any child trades again, whatever runs later |
| Frozen.ExpiryEndsTheDayIff | src/papertrade_india/orders/state.py:467-496 | expiry ends every open DAY order if and only if none is partially filled |
| Frozen.PartialDayOrderSurvives | src/papertrade_india/orders/state.py:467-496 | a run from opening in which a DAY order with four of ten shares filled is open after expiry |
| Brackets.InvNext | src/papertrade_india/orders/state.py:557-640 | every typed, gated transaction on an up-to-date row keeps the bracket invariant |
| Brackets.SafeNextIff | src/papertrade_india/orders/market.py:126-187 | one on a row read at any time keeps every bracket safe if and only if, when it fills a stop, the quantity read is still uncovered |
| Brackets.BracketsSafeIffStopsFit | src/papertrade_india/orders/market.py:126-187 | over any run on readings of any age brackets are safe throughout if and only if every stop that filled was read with a quantity still uncovered |
| Brackets.BracketsEndure | src/papertrade_india/orders/bracket.py:24-115 | from its queueing to the end of any run a bracket is the same three orders of one symbol, the entry as asked for, children on the other side at their own prices, the target for the whole quantity and the stop for no more |
| Brackets.OrdersEndure | src/papertrade_india/orders/limit.py:31-72 | from its queueing to the end of any run an order keeps the symbol, side, quantity, prices, time in force, product and stamp it was queued with, and its kind but that a stop-limit may have become a limit |
| Brackets.SiblingAfterSlice | src/papertrade_india/orders/state.py:588-640 | a slice of one child cuts its open sibling to what the parent's fill leaves uncovered, and a completing slice cancels it |
| Brackets.BracketExposure | src/papertrade_india/orders/state.py:557-640 | after every such run in which stops fit, the children filled no more than the parent, an open stop fits beside the target's fills, never both are filled, and a filled child leaves no open sibling |
| Brackets.ChildFillCoveredIff | src/papertrade_india/orders/limit.py:105-183 | a child's fill from a reading of any age keeps the shares its bracket's children traded within the parent's if and only if the shares it takes are still uncovered |
| Brackets.ChildrenNeverOvertrade | src/papertrade_india/orders/limit.py:165-183 | over every run in which stops fit and slices are up to date the children trade no more shares than the parent |
| Brackets.StopsExactIffNoneSetBack | src/papertrade_india/orders/state.py:588-640 | over any run on readings of any age an open stop is throughout for exactly what its target has not sold, if and only if no trading slice sets a target's filled quantity back |
| Brackets.StopCoversTheRest | src/papertrade_india/orders/state.py:588-640 | so in every run with up-to-date slices no open stop is short or over |
| Brackets.DrivenRuns | src/papertrade_india/workers/limit_orders.py:246-378 | a run on current rows, as one watcher makes alone, meets both conditions |
| StaleReadings.StaleStopOvertrades | src/papertrade_india/orders/market.py:126-187 | a run from opening whose stop, read before the target's slice, sells fourteen shares to close ten |
| StaleReadings.StaleSliceOvertrades | src/papertrade_india/orders/limit.py:105-142 | a run from opening whose second target slice, read before the first, sells eleven shares to close ten while the rows look safe |
| StaleReadings.StaleSliceLeavesStopShort | src/papertrade_india/orders/limit.py:105-142 | a run from opening whose stale slice sets the target back and leaves two shares without a stop |
| LimitProtection.LimitsAreHonoured | src/papertrade_india/workers/limit_orders.py:344-365 | every trade of a limit order, converted stop-limits included, and its average price are no worse than its limit after every run of typed, gated steps on readings of any age |
| LimitProtection.TargetsTakeTheirPrice | src/papertrade_india/orders/bracket.py:24-115 | in every such run, from its queueing to the end, a bracket target trades on the side opposite to its entry at the target price or better |
| Watcher.GetOrders | src/papertrade_india/reads/orders.py:18-41 | distinct current rows of one status, newest first, the newest ones up to the cap or all of them when there are fewer |
| Watcher.Select | src/papertrade_india/workers/limit_orders.py:252-271 | exactly the released orders of one kind among the open rows pulled, in that order, each once and, within the caps, all there are |
| Watcher.AllPending | src/papertrade_india/orders/preopen.py:201-206 | every pending row once, oldest first, without a cap |
| Watcher.FillAt | src/papertrade_india/orders/limit.py:94-123 | one slice of at most what remains, at exactly the price given when limit orders pay no slippage and otherwise at that price moved by the symbol's basis points or the limit if better, with the fee of just that; the transaction's own error, other limit rows left alone, every other row when the order has no parent |
| Watcher.PriceMarketOrder | src/papertrade_india/orders/market.py:137-149 | the slipped quote, or with the book on the price of the order's own walk of it |
| Watcher.FillQueued | src/papertrade_india/orders/market.py:126-155 | one whole fill of the row as freshly read, at the fetched quote moved by slippage, or with the book on at its walk's price, with the fee of that; refused when stale or unpriced |
| Watcher.FireStop | src/papertrade_india/orders/stop.py:72-122 | the mark or conversion, then for a stop-market the fill of the row so marked; other stops left alone |
| Watcher.FireStops | src/papertrade_india/workers/limit_orders.py:292-321 | exactly the touched stops with a usable quote fire, in order, on rows still current; the count is the attempts not rolled back |
| Watcher.FillLimits | src/papertrade_india/workers/limit_orders.py:344-377 | exactly the reached orders with a usable quote get one capped slice each, in order; the count is the slices not rolled back |
| Watcher.MatchPass | src/papertrade_india/workers/limit_orders.py:246-378 | all released open stops as they stood, then all released open limit orders as they stand after the stops, at prices fetched for the symbols selected before them; no outdated row, no child before its parent, no slice past its limit |
| Watcher.FireAmo | src/papertrade_india/orders/amo.py:67-98 | every pending after-market order gets one fill attempt; a failure leaves that order pending and the round goes on |
| MatchingRules.StopsTriggerIff | src/papertrade_india/workers/limit_orders.py:292-308 | in a pass a pulled stop is triggered if and only if its symbol has a quote fit for use at or above its stop for a buy, at or below it for a sell |
| MatchingRules.StopMarketFillsIff | src/papertrade_india/orders/stop.py:72-103 | of the stops of a pass just the triggered pending stop-markets ask for a fill, each of itself as marked, if it can be priced |
| MatchingRules.TriggeredStopLimitIsWorked | src/papertrade_india/workers/limit_orders.py:323-342 | a pending stop-limit the pass triggers is a limit order at its own price from then on, and within the caps among those the same pass goes on to; one not triggered is left as it was |
| MatchingRules.LimitsFillIff | src/papertrade_india/workers/limit_orders.py:344-365 | in a pass a pulled limit order gets a slice if and only if its symbol was fetched and has a positive quote fit for use, at or below its limit for a buy, at or above it for a sell, and the cap leaves it something; the slice is that, priced from that quote |
| MatchingRules.AmoFillsIff | src/papertrade_india/orders/amo.py:67-98 | a pending order is filled in the after-market round if and only if it is an after-market market order that can be priced |
| Session.LimitOrderWatcher.RollDate | src/papertrade_india/workers/limit_orders.py:155-162 | a new date arms every once-a-day hook again, the same date none |
| Session.LimitOrderWatcher.OpeningHooks | src/papertrade_india/workers/limit_orders.py:164-201 | in the regular session the whole auction round if it is switched on and the date still owes it, then on the same terms every after-market order as it stands after the round; otherwise nothing |
| Session.LimitOrderWatcher.ExpiryHook | src/papertrade_india/workers/limit_orders.py:203-221 | one day expiry exactly when switched on, outside the session on the calendar, on a trading day, and not yet done on the date |
| DailyHooks.TickExpiresIff | src/papertrade_india/workers/limit_orders.py:203-221 | over any session whose dates never go back a tick expires the day's orders if and only if it is the first of a trading day's ticks out of hours |
| DailyHooks.TheCloseExpiresIff | src/papertrade_india/workers/limit_orders.py:203-221 | the first tick after the close expires the day's orders if and only if no tick of the date came before the opening outside pre-open; else it does nothing |
| DailyHooks.DayIsClosedIff | src/papertrade_india/workers/limit_orders.py:203-221 | some tick after the close of a trading day expires its orders if and only if the watcher ticks after that close and never before that opening |
| DailyHooks.DayOrderOutlivesItsDay | src/papertrade_india/workers/limit_orders.py:203-221 | a session with a tick at eight, a DAY order queued after it, and a post-close tick that leaves the order pending |
| DailyHooks.OpeningRunsIff | src/papertrade_india/workers/limit_orders.py:155-201 | over any session whose dates never go back the auction round and then the after-market orders are run, when switched on, by the first tick of a date in the session and by no other of its ticks in the session |
| Session.LimitOrderWatcher.Tick | src/papertrade_india/workers/limit_orders.py:122-378 | a tick is the hooks the date still owes, each in full, and then, in the session or without market hours, one whole matching pass over what they left; it leaves exactly the right hooks done |
| Session.Request | src/papertrade_india/orders/bracket.py:40-104 | a user's request is one transaction, followed for a bracket with a market entry by the fill of that entry |
| MatchingRules.EntryFillsAtOnce | src/papertrade_india/orders/bracket.py:40-104 | a request is followed by a fill if and only if it queued a bracket with a market entry that can be priced, and then by that entry's |
| Session.TrailsStayInOrder | src/papertrade_india/workers/limit_orders.py:246-378 | after any trail from opening orders and trades agree, cash equals the ledger and each order's ledger rows its trades with their fees, realized P&L the trades', brackets are within their parents and every limit is honoured |
| Session.RunSession | src/papertrade_india/workers/limit_orders.py:111-121 | from opening, any sequence of ticks and requests at any prices: each does all its work on what those before it left, and the account ends in that order |
| MatchingRules.StopsTriggerInSessions | src/papertrade_india/workers/limit_orders.py:292-308 | in any session a stop pulled by a tick is triggered by it if and only if the price it saw had come to the stop |
| MatchingRules.NoStopFiresEarly | src/papertrade_india/workers/limit_orders.py:303-306 | over any session of ticks and requests no buy stop is triggered below its stop price and no sell stop above it |
| Slippage.CrossedFillStaysInsideLimit | src/papertrade_india/execution/slippage.py:99-120 | a fill at a price that reached the limit stays inside it, slippage on limits on or off |
| Slippage.SlippageNeverHelps | src/papertrade_india/execution/slippage.py:65-120 | a market buy pays at least the last price, a market sell gets at most it |
| Slippage.LimitPaysExactly | src/papertrade_india/execution/slippage.py:99-120 | a limit order pays the price it is filled from when limit orders pay no slippage; otherwise that price moved against the trader by the symbol's basis points, or its limit where the move would pass it; none without a positive price |
| Slippage.MarketPaysExactly | src/papertrade_india/execution/slippage.py:99-120 | a market order pays all of the move |
| PartialFills.SliceInRange | src/papertrade_india/orders/partial_fills.py:53-92 | a slice is at least the floor, or all that is left, and never more than what is left |
| PartialFills.SliceIsLargestAllowed | src/papertrade_india/orders/partial_fills.py:76-92 | an enabled cap takes whole shares, within both caps or else the floor, and one more would pass a cap or what remains; a disabled one takes everything |
| PartialFills.SlicesAddUp | src/papertrade_india/orders/partial_fills.py:53-92 | the slices of an order add up to it exactly |
| PartialFills.TicksWithinFloorCount | src/papertrade_india/orders/partial_fills.py:53-92 | at most ceil(qty / floor) crossing ticks complete it |
| PartialFills.ThreeTicksHalve | src/papertrade_india/broker.py:158-160 | three ticks of the default cap halve what exceeds three shares |
| PartialFills.LogarithmicCompletion | src/papertrade_india/broker.py:158-160 | the default cap completes up to 3 + 2^k shares in 3k + 4 ticks |
| Slicing.FilledExactlyAfterItsSlices | src/papertrade_india/orders/limit.py:105-123 | an order under the cap is filled, in full and in no excess, exactly when it has had as many crossing ticks as it has slices |
| Fees.RoundMonotone | src/papertrade_india/execution/fees.py:130-134 | rounding to paise keeps order, across zero too |
| Fees.RoundsToNearestPaisa | src/papertrade_india/execution/fees.py:130-134 | a rounded amount is a whole number of paise, none is nearer, and of two as near it is the one further from zero |
| Fees.BrokerageTerms | src/papertrade_india/execution/fees.py:164-173 | the flat fee without a percentage, else the percentage of turnover and never more than the cap when there is one |
| Fees.ChargesBySide | src/papertrade_india/execution/fees.py:163-213 | securities tax by the rate of the side, stamp duty for buyers alone, the depository's charge for sellers alone, GST on brokerage and exchange charge alone, each line rounded, the total from the exact sum |
| Fees.TotalWithinFourPaise | src/papertrade_india/execution/fees.py:160-213 | the rounded total is within four paise of its rounded parts |
| Fees.TotalInClosedForm | src/papertrade_india/execution/fees.py:160-213 | the seven charges sum to capped brokerage with GST, a rate on turnover and the DP charge |
| Fees.TotalChargeIsCalculated | src/papertrade_india/execution/fees.py:143-213 | what an executed leg is charged is that closed form, rounded |
| Fees.TotalMonotoneInTurnover | src/papertrade_india/execution/fees.py:143-213 | the charge is never negative and never falls as turnover grows |
| Fees.SlicingSavesOnlyRounding | src/papertrade_india/orders/limit.py:116-123 | n slices cost at least the fee on their combined turnover less (n + 1) half-paise |
| FeeSchedules.ConfigOn | src/papertrade_india/execution/fees.py:116-127 | the latest config in force on the date, or the default when none is |
| Ticks.SnapsToNearest | src/papertrade_india/domain/rules/tick_lot_band.py:57-69 | a snapped price is a grid price and no grid price is nearer |
| Ticks.SnapIsMonotone | src/papertrade_india/domain/rules/tick_lot_band.py:57-69 | snapping never reverses two prices |
| Ticks.SnapsToZeroIffBelowHalf | src/papertrade_india/domain/rules/tick_lot_band.py:57-69 | a positive price snaps to zero if and only if it is below half a tick |
| OrderBook.WalkBook | src/papertrade_india/execution/book.py:244-283 | the loop records the greedy slices, their average, floored impact and completeness; nothing filled and a zero benchmark are the error paths |
| OrderBook.WalkIsOptimal | src/papertrade_india/execution/book.py:250-257 | on best-first levels the walk fills min(qty, depth) at the least cost, or greatest proceeds, over all allocations of that many shares within level sizes |
| OrderBook.AverageNeverImproves | src/papertrade_india/execution/book.py:271-271 | a larger order never gets a better average price |
| BookSynthesis.Synthesize | src/papertrade_india/execution/book.py:157-184 | levels one tick apart around the snapped quote, or the default spread, non-positive bids left out |
| BookSynthesis.SynthesizedBookIsSound | src/papertrade_india/execution/book.py:157-184 | whatever was quoted, the book is best-first, has shares at every level and is not crossed |
| BookSynthesis.SnappedInOrder | src/papertrade_india/execution/book.py:165-166 | the snapped quote is in order, and locked if and only if both sides go to the same tick |
| BookSynthesis.SynthesizedLevels | src/papertrade_india/execution/book.py:160-184 | the touch is the quoted bid and ask on the tick grid when they are positive and in order, else the last price less and plus half the spread or half a tick; levels go out a tick apart at the sizes given, one share at least, and only bids that would not be positive are left out |
| BookSynthesis.ImpactIsTrueCost | src/papertrade_india/execution/book.py:271-281 | on a sound book the impact in basis points of the midpoint is just the distance of the average from it, and the floor never bites: no order fills better than the mid |
| BookSynthesis.ExtendLadder | src/papertrade_india/execution/book.py:205-219 | the loops keep the levels with a positive price and append the tail |
| BookSynthesis.LadderExtended | src/papertrade_india/execution/book.py:186-219 | real levels with a positive price come through unchanged and in front, then a tail a tick apart at the sizes given up to the level count or a non-positive price; best-first stays best-first |
| BookImpact.ApplyBookImpact | src/papertrade_india/orders/book_helpers.py:45-79 | the average of the order's walk through the book its quote or depth gives, or the last price when nothing is walked |
| BookImpact.FacesTheOtherSide | src/papertrade_india/orders/book_helpers.py:59-75 | a buyer faces the asks and a seller the bids: the provider's own positive levels first when it gives depth on both sides, else from the quoted touch on the tick grid |
| BookImpact.RoundsHalfToEven | src/papertrade_india/orders/book_helpers.py:76-76 | the order walks the nearest whole number of shares, the even one of two |
| BookImpact.FallbackIsSlippedIff | src/papertrade_india/orders/book_helpers.py:52-63 | with nothing to walk the order pays the last price, which is the slipped price it is promised if and only if its symbol has no slippage |
| BookImpact.FallbackCanSkipSlippage | src/papertrade_india/orders/book_helpers.py:62-63 | a buy without a quote at five basis points pays 100, not 100.05 |
| BookImpact.NeverBeatsSlippageIff | src/papertrade_india/orders/market.py:137-149 | orders of every whole size pay no better than the slipped quote if and only if the first level they meet is no better than it |
| BookImpact.BookCanBeatSlippage | src/papertrade_india/orders/market.py:137-149 | at a hundred basis points a buy pays 100 where the slipped quote is 100.495 |
| BookImpact.PaysForItsWalkIff | src/papertrade_india/orders/book_helpers.py:76-79 | what the order pays is what its walk spent if and only if it is for whole shares and the side holds them all |
| BookImpact.ShortBookExample | src/papertrade_india/orders/book_helpers.py:76-79 | an order for twenty pays 2000 on a walk that found five shares for 500 |
| BookImpact.SmallOrderSkipsTheBook | src/papertrade_india/orders/book_helpers.py:76-78 | an order for at most half a share rounds to none and pays the last price |
| Breaker.CircuitBreakerProvider.AllowCall | src/papertrade_india/providers/health.py:134-151 | admits when closed, or as a probe once the open time has passed |
| Breaker.CircuitBreakerProvider.RecordSuccess | src/papertrade_india/providers/health.py:153-165 | closes the breaker and restarts the failure count |
| Breaker.CircuitBreakerProvider.RecordFailure | src/papertrade_india/providers/health.py:167-180 | counts, and opens when tripped and not open already |
| Breaker.CircuitBreakerProvider.ResetBreaker | src/papertrade_india/providers/health.py:190-196 | closes and clears the window, lifetime totals kept |
| Breaker.CircuitBreakerProvider.GetQuote | src/papertrade_india/providers/health.py:200-215 | asks only if admitted and reports only a quote or an error |
| Breaker.FailureNeverLowersRate | src/papertrade_india/providers/health.py:71-77 | appending a failure to a bounded window never lowers its rate |
| Breaker.NotClosedMeansTripped | src/papertrade_india/providers/health.py:134-188 | under any interleaving an open or half-open breaker has its trip condition true |
| Breaker.HalfOpenFailureReopens | src/papertrade_india/providers/health.py:167-180 | every failure recorded while half-open re-opens it and restarts its clock |
| Breaker.OpenFailsFast | src/papertrade_india/providers/health.py:141-151 | after a failure opens it, no call is admitted for the open time without a success or reset |
| Breaker.AdmittedOnTimeIff | src/papertrade_india/providers/health.py:141-180 | after a failure has opened it, with no success, reset or probe in between, a call is admitted if and only if the open time has passed since that failure, whatever failures come meanwhile |
| Breaker.LateFailureDelaysNothing | src/papertrade_india/providers/health.py:174-180 | opened at 0 and failed again at 59 it admits a probe at 60 |
| Breaker.ProbesAreSpaced | src/papertrade_india/providers/health.py:134-151 | two calls admitted while not closed are at least the open time apart, late failures notwithstanding |
| Breaker.RecoversIffProbeReports | src/papertrade_india/providers/health.py:211-215 | a probed half-open breaker admits some later call if and only if the probe returned a quote or raised |
| Breaker.SilentProbeHangs | src/papertrade_india/providers/health.py:200-215 | a breaker opened by one failure and probed a minute later, whose probe returns nothing, admits no call ever after |
| Breaker.FirstFailureOpensIff | src/papertrade_india/providers/health.py:174-180 | a fresh breaker opens on its first failure if and only if the threshold is at most one or a non-empty window has a rate limit below one |
| Breaker.OpenExactlyAtThreshold | src/papertrade_india/providers/health.py:167-180 | without the rate rule it is not closed exactly while the failure count has reached the threshold |
| Breaker.StateSummarisesHistory | src/papertrade_india/providers/health.py:153-196 | the window is the last results since the last reset, the counter their trailing failures |
| Breaker.TotalsCountEveryResult | src/papertrade_india/providers/health.py:153-196 | lifetime totals count every result and failure, across resets; the opening time is kept exactly while not closed |
| Consensus.MedianInside | src/papertrade_india/providers/composite.py:116-123 | with fewer than half the values outside a range the median is inside it, odd and even counts |
| Consensus.MedianIsMidway | src/papertrade_india/providers/composite.py:116-123 | the median is midway between the values with as many below as above: the middle one of an odd count, the two of an even one |
| Consensus.MergedPriceIsRobust | src/papertrade_india/providers/composite.py:77-81 | with fewer than half the quotes arbitrary the merged price lies between the bounds of the rest |
| Consensus.MergedQuoteIsUncrossed | src/papertrade_india/providers/composite.py:91-104 | if every quote has bid no higher than ask, so has the merged quote |
| Consensus.MergedExtremes | src/papertrade_india/providers/composite.py:94-112 | volume, high and timestamp are the greatest supplied, low the least, absent only when nobody supplies one; real-time only when every input is |
| Consensus.MergedMiddles | src/papertrade_india/providers/composite.py:77-113 | last, bid, ask, open and previous close are each the middle of the like figures supplied, absent only when nobody supplies one |
| Consensus.MergesIff | src/papertrade_india/providers/composite.py:75-89 | there is a merged quote if and only if enough providers answered, one at least, and the spread check does not divide by a zero median |
| Consensus.MergeIgnoresOrder | src/papertrade_india/providers/composite.py:77-113 | reordering the inputs changes nothing but the currency label |
| Consensus.CompletionOrderIsIrrelevant | src/papertrade_india/providers/composite.py:213-231 | answers arriving in any order merge to the same figures |
| Consensus.FanOut | src/papertrade_india/providers/composite.py:205-231 | collects the live quotes in the order they come |
| Consensus.FirstWins | src/papertrade_india/providers/composite.py:184-194 | the default strategy returns the first provider's quote that is one, all before it having none, or nothing when none has |
| Settlement.FindNextBusinessDay | src/papertrade_india/execution/settlement.py:332-345 | the loop reaches the next business day |
| Settlement.NextBusinessDayIsFirst | src/papertrade_india/execution/settlement.py:332-345 | it is the first weekday after the date, at most three days on |
| Settlement.TradeAwaitsSettlement | src/papertrade_india/execution/settlement.py:174-241 | under T+1 an accepted trade leaves one pending row with its shares, side, cash and the first weekday after it to settle on |
| Settlement.RolledOnceIsEnough | src/papertrade_india/execution/settlement.py:245-269 | settlement retires just the awaiting rows whose day has come and leaves nothing due for that day or before |
| Settlement.DeliveryDesk.EnqueueBuy | src/papertrade_india/execution/settlement.py:210-241 | one pending row in T+1 mode, none in T+0 |
| Settlement.DeliveryDesk.EnqueueSell | src/papertrade_india/execution/settlement.py:174-208 | one pending row with its cash in T+1 mode, none in T+0 |
| Settlement.DeliveryDesk.SettleDue | src/papertrade_india/execution/settlement.py:245-269 | retires exactly the due rows and counts them |
| Settlement.DeliveryDesk.DeliverableQty | src/papertrade_india/execution/settlement.py:273-298 | the position less in-flight buys, floored at zero |
| Settlement.DeliveryDesk.FillBuy | src/papertrade_india/orders/market.py:231-261 | a delivery buy adds to the position and enqueues its settlement row |
| Settlement.DeliveryDesk.SubmitMarketSell | src/papertrade_india/orders/submit.py:363-382 | a delivery market sale goes through exactly when positive, deliverable and held |
| Settlement.SettleDueKeepsDeliverable | src/papertrade_india/execution/settlement.py:245-298 | rolling the table as of a day changes no deliverable quantity on that day or later |
| Settlement.ConsumeTakesDueShares | src/papertrade_india/execution/settlement.py:273-298 | in the lot-by-lot reference a sale takes its shares from due lots and nowhere else |
| Settlement.AcceptedIffCovered | src/papertrade_india/orders/submit.py:171-176 | the broker's answer is the lot account's if and only if a resting fill stays within the deliverable quantity |
| Settlement.SalesCoveredBySettledLots | src/papertrade_india/execution/settlement.py:210-298 | over runs on a monotone clock, position less in-flight is the due-lot balance, never negative, and every accepted sale was covered by lots already due |
| Settlement.RestingSaleCanOutrunSettlement | src/papertrade_india/orders/submit.py:171-176 | a resting sale, deliverable when it was submitted, that fills against shares bought the same day |
| Calendar.NseCalendar.NextOpen | src/papertrade_india/infrastructure/market_hours.py:177-200 | the loop returns the opening of the first trading day among its candidates, or of the day after them |
| Calendar.PhaseByTheClock | src/papertrade_india/infrastructure/market_hours.py:150-175 | on a weekday that is no holiday regular from 09:15 to 15:30, pre-open from 09:00 to 09:08, post-close from 15:40 to 16:00, ends included to the microsecond; closed at any other time |
| Calendar.NextOpenIsRegularIff | src/papertrade_india/infrastructure/market_hours.py:177-200 | it is strictly later, and regular if and only if one of the twenty-one days in reach is a trading day |
| Calendar.NextOpenIsLeast | src/papertrade_india/infrastructure/market_hours.py:186-200 | no opening lies between |
| Calendar.ClosedUntilNextOpenIff | src/papertrade_india/infrastructure/market_hours.py:150-200 | no instant until the next opening is regular if and only if the present one is not |

## Left out

- Data-provider clients, quote parsing, symbol master, watchlists and holiday downloads: quotes, books
  and holiday sets come in as parameters.
- The user interface, command line, presets and registry: wiring, no claim of their own.
- SQLite, threads and write-ahead logging: a transaction is one atomic step that commits or changes
  nothing, and a lost race is a step on a stale snapshot.
- Refusal of delayed quotes: a quote the broker refuses to trade on is a quote the watcher does not get.
- Latency, random rejection, risk caps, lot and price-band checks, idempotency keys: a refused
  submission is a step that does nothing.
- Events, logging and queue-position bookkeeping: no state decision depends on them.
- Account reset: it keeps the settlement table, and no theorem is stated across it.
- Timestamps other than an order's creation stamp, rejection reasons and the unused target-price column
  of order rows.
- Rows with equal submission stamps: the auction's sort keeps their book order, but the order in which
  the database returns them is arbitrary in the model.
- Almgren impact and the geometric decay of level sizes: sizes are arbitrary integers with the code's
  floor of one share.
- Floating-point error: arithmetic is exact. The 1e-9 remainder rule is modelled as written; the other
  tolerances of the code stand in for rounding and are taken as zero.
- Account.Broker.FillLimit: takes the adjusted price and the fee as arguments; `Watcher.FillAt` computes both as the source does before its transaction.
- Account.Broker.FillPendingMarket: likewise takes the row read, the price and the fee that `Watcher.FillQueued` computes.
- Watcher.FillAt: uses one fee configuration for the account's life; the dated schedule is `FeeSchedules.ConfigOn`.
- Session.LimitOrderWatcher.Tick: square-off, idempotency cleanup and settlement are not among its hooks: square-off is a series of market sales, which the run theorems cover, and settlement has its own model. One tick reads one instant, where the code reads the clock anew for each hook.
- BookImpact.NeverBeatsSlippageIff: speaks of sides that are best-first and start with a share, which synthesized books are and provider depth is when it comes in price order.
- Settlement.DeliveryDesk.SubmitMarketSell: the settlement table is not one of the tables of `Store`, so cash and orders do not appear beside it.
- Breaker.CircuitBreakerProvider.GetQuote: history calls go through the same three steps, with an empty list in the place of no quote, and are not modelled again.
- BookSynthesis.SynthesizedBookIsSound: needs a positive tick; with none, all levels would share one price.
