# Exchange core: a verified model

This project models the parts of a trading exchange server on which its users' money and its messages depend, and proves what they
promise. It has ten parts.

**Numbers and ledger** (`Decimal`, `Balances`, `Ledger`). Decimals are exact `real` numbers on decimal grids; rescaling truncates. The ledger maps
user, kind (available or frozen) and asset to an amount. Amounts off the grid round the balance down.

**Matching** (`Orders`, `Matching`, `MatchingProofs`, `Execution`, `Priority`). One specification, `Execute`, stands for the four matching loops: while
the taker wants more and accepts the best maker, trade with it. It is proved to keep every record and balance consistent, to be the price and
time greedy fill, and to be the best that the taker can get.

**Engine** (`EngineSpec`, `EngineInvariant`, `EngineRuns`, `Records`, `EdgeCases`, `MarketStore`, `Engine`). Commands are steps of a state machine over the ledger,
the books, two counters and the table of used update keys. The invariant ties frozen balances to open orders over all markets, keeps books uncrossed
and ids unique, and holds in every reachable state. Each open order records the sum of its deals over its whole life. The classes `MarketT` and `Engine` do the same in place, with dictionaries, per-user lists, two
id-sorted sides and the loops of the program, and are proved against the specification. The balance operations whose results the program ignores are
proved to succeed at the point of each call.

**What commands do** (`Outcomes`, `Origins`, `Holdings`, `Fates`). The same engine seen from outside, in terms of nothing but the numbers of commands: when
each command is accepted and how it is refused, what each deal charges whom and at whose rate, the books and every balance afterwards; and over whole runs which
commands every open order and every deal come from, what became of every order, and what every user holds.

**Restart** (`Replay`, `Restart`, `Tables`, `Persist`, `History`, `Server`, `RestartCases`). Dumps, their SQL columns, the paged loaders and the replay of
the log. A history is any interleaving of requests, flushes of the log, midnights, slices, and crashes with restarts. The main theorem compares the engine
at the end of a history with one that never stops; the methods of the program, from the command handlers to `init_from_db`, are proved to play every history.

**Depth** (`DepthLevels`, `DepthDiff`, `DepthFeed`). The levels of a book, the difference of two depth lists, and the subscription protocol with its
subscribers.

**Transport** (`Octets`, `Framing`, `Streams`, `Buffers`, `Sessions`). Package framing, byte buffers in place, the two halves of a stream session against a
kernel that takes and gives bytes as a script says, and two sessions with a network between them.

**Worker pool** (`JobPool`, `JobLists`). The threads as a system of steps, with safety in every interleaving and termination of every schedule, and the linked
lists under the lock.

**HTTP bodies** (`HttpBody`, `HttpParser`). The body states of the parser byte by byte, the language of chunked bodies in both directions, and the
segment loop that refines it.

**Bars and tables** (`Kline`, `KlineStore`, `Chains`, `Dict`, `StateTable`). Price bars at three resolutions with their queries, and two chained hash tables.

`dafny verify dfyconfig.toml` checks everything.

## Where the code and its documentation or comments part

- `decimal(str, 0)` does not rescale (`utils/ut_decimal.c:37`). A market or asset without digits therefore takes numbers with digits, and then the ledger and
  the books part: `EdgeCases.UnalignedOrderBreaks` gives such an order, and
  `EdgeCases.FreezeFollowsIff` says exactly when the two stay together. The run theorems take order numbers that land on the grids of their market (`Aligned`),
  which every positive precision ensures by itself.
- A live balance change is cut to the digits that are shown (`matchengine/me_server.c:257`), its log row to those that are kept
  (`matchengine/me_load.c:147`). `EdgeCases.UpdateReplaysIff` says exactly when that makes no difference.
- Balances are dumped to sixteen digits (`sql/create_trade_log.sql:6`), while `bin/matchengine/config.json:38-39,78-79` keeps twenty of the money of every
  configured market. `RestartCases.SaleNotRestored` is a sale in the configured market BTCBCH after which no slice restores the engine;
  `RestartCases.RoundingStopsRestart` is a history in which the rounding stops the next restart. `Restart.SliceRestores` says exactly when a slice is exact,
  and bounds what it loses otherwise; frozen balances and the invariant are never lost (`Restart.RestoredInv`, `History.HistoryInv`).
- Without a slice a restart reads the log of today only (`matchengine/me_persist.c:146-150`). `RestartCases.NightForgets` is a history in which the server
  then starts from nothing; `Persist.RestartWithoutSlice` gives each outcome.
- A restart forgets which update keys were used before the slice, and the running engine forgets them after a day; so a log can hold a key twice, and
  then replay stops. The restart theorems say that this is the only way in which it stops where slices are exact.
- `rpc_decode` keeps the size of a package in 32 bits (`utils/ut_rpc.c:21`), so that a header can announce more than the package takes.
  `Framing.AnnouncedInside` says exactly when it does not.
- `unhex` lists 128 of its 256 values (`utils/http_parser.c:224-233`), so bytes from 128 on are size digits of value 0. The model follows the code.
- The parser takes a bare line feed for the empty line after the last chunk (`utils/http_parser.c:1255-1260`). `HttpBody.Encoding` allows both.
- `dict_delete` (`utils/ut_dict.c:203-227`) does not look at the clearing mark, so its answer counts an entry from before the mark.

## Model

| member | source | states |
|---|---|---|
| Decimal.TruncateIsFloor | utils/ut_decimal.c:14-16 | rescaling rounds down: it lands on the grid of the precision, at most one unit below the number |
| Decimal.TruncateGreatest | utils/ut_decimal.c:14-16 | no number of that precision lies between a number and its truncation |
| Decimal.TruncateExact | utils/ut_decimal.c:28-42 | a number that already has the precision is kept |
| Decimal.GridIsMultiples | utils/ut_decimal.c:37-39 | the numbers of a precision are exactly the whole multiples of its unit, ten of which make one of the next coarser precision |
| Decimal.GridMul | matchengine/me_market.c:268-273 | the product of two numbers of precisions p and q has precision p+q, which is what the checks of a market rest on |
| Decimal.RoundUpIsCeiling | matchengine/me_balance.c:259-283 | what a truncated subtraction takes away is the least number of whole units that covers the amount |
| Decimal.TruncatedSub | matchengine/me_balance.c:270-275 | truncating after a subtraction takes the amount rounded up |
| Decimal.TruncatedAdd | matchengine/me_balance.c:240-247 | truncating after an addition adds the amount rounded down |
| Balances.AddExact | matchengine/me_balance.c:231-256 | on whole units `balance_add` succeeds and adds exactly the amount |
| Balances.SubRoundsUp | matchengine/me_balance.c:259-283 | a covered `balance_sub` succeeds, takes the amount rounded up to one unit, and leaves nothing negative |
| Balances.MoveExact | matchengine/me_balance.c:285-337 | freezing and unfreezing a covered whole amount succeed and move exactly it |
| Balances.Refusals | matchengine/me_balance.c:189-337 | each operation is refused exactly for an unknown asset, a negative amount, or more than there is; a refused one changes nothing and an accepted one no other balance |
| Balances.TotalPut | matchengine/me_balance.c:357-387 | the total of an asset over all users changes by exactly what one entry changes by |
| LedgerStore.Ledger.Get | matchengine/me_balance.c:164-178 | finds an entry if and only if the dictionary has it; a missing entry reads as zero |
| LedgerStore.Ledger.Del | matchengine/me_balance.c:180-187 | removes exactly the entry |
| LedgerStore.Ledger.Set | matchengine/me_balance.c:189-228 | in place: refuses unknown assets and negative amounts, else truncates and stores, or deletes a zero |
| LedgerStore.Ledger.Add | matchengine/me_balance.c:231-256 | in place: the new dictionary is the one of the specification, and nothing changes on a refusal |
| LedgerStore.Ledger.Sub | matchengine/me_balance.c:259-283 | in place: refused without cover; a truncation may leave a zero entry, which reads the same as none |
| LedgerStore.Ledger.Freeze | matchengine/me_balance.c:285-310 | in place: available to frozen, or no change at all |
| LedgerStore.Ledger.Unfreeze | matchengine/me_balance.c:312-337 | in place: frozen to available, or no change at all |
| LedgerStore.Ledger.Status | matchengine/me_balance.c:357-387 | the loop over the dictionary adds up and counts exactly the available and the frozen entries of an asset, in any order of the walk |
| Orders.CompareIsTotalOrder | matchengine/me_market.c:78-101 | on one side `order_match_compare` is a strict total order that ties an order only with itself; which order it is says `Orders.SortedIsPriceTime` |
| Orders.SortedIsPriceTime | matchengine/me_market.c:78-101 | a side is sorted exactly if better prices come first, at equal prices smaller ids, and no id repeats; said by prices and ids alone |
| Orders.InsertSorted | matchengine/me_market.c:155-209 | inserting keeps a side in matching order |
| Orders.RemoveElements | matchengine/me_market.c:212-260 | removing takes away exactly the order with the id |
| Orders.SortedUnique | matchengine/me_market.c:78-101 | a side is determined by its orders: there is one matching order |
| MatchingProofs.AffordableIsFloor | matchengine/me_market.c:907-909 | dividing and truncating gives the greatest whole number of stock units that the money pays for |
| MatchingProofs.FeeBounded | matchengine/me_market.c:415-421 | a fee never exceeds what the party was paid |
| MatchingProofs.TradeAmountOk | matchengine/me_market.c:401-414 | a traded amount is positive, whole, and within what both parties have |
| MatchingProofs.TradedRecord | matchengine/me_market.c:440-447 | over its life a bid pays at most, and an ask gets at least, its own price for all it has traded |
| MatchingProofs.MakerStays | matchengine/me_market.c:449-457 | a maker keeps `deal_stock + left == amount` and exactly the collateral that what is left of it needs |
| MatchingProofs.TakerStays | matchengine/me_market.c:440-447 | a taker stays within its amount and budget |
| MatchingProofs.SettleBoth | matchengine/me_market.c:459-503 | both settlements of a trade succeed, and each balance changes by exactly the stated amounts, self-trades included |
| MatchingProofs.FillKeeps | matchengine/me_market.c:401-519 | every balance operation of a trade, whose result the loop ignores, succeeds; frozen balances follow the collateral of the makers; totals fall by the fees rounded up and nothing else |
| Execution.PartialFillStops | matchengine/me_market.c:404-411 | a maker that is not used up ends the loop: the taker is filled, or cannot pay for another unit |
| Execution.ExecuteKeeps | matchengine/me_market.c:388-533 | a whole match keeps the invariant, ends with nothing left to trade, and moves the ledger by its deals only |
| Priority.ExecuteUsesBestMakers | matchengine/me_market.c:388-519 | deal number j is with maker number j of the sorted side, at the price of the maker; only the last maker keeps a part; the record of the taker is the sum of its deals |
| Priority.PriceTimeKept | matchengine/me_market.c:388-519 | a maker trades only after each maker with a better price, and each older one at the same price, has been used up by an earlier deal |
| Priority.BestTotal | matchengine/me_market.c:388-642 | no other way to trade the same volume with these makers gives the taker a better total |
| Priority.VolumeTraded | matchengine/me_market.c:401-519 | a limit order, and a market sell, trades exactly the smaller of its size and what is offered at prices it accepts |
| Priority.MarketBuyResidue | matchengine/me_market.c:888-1005 | a market buy spends at most its amount and ends with no asks or with less than one stock unit costs at the best price |
| Priority.MarketBuyMost | matchengine/me_market.c:898-914 | no way to spend the amount on whole units buys more stock than the market buy does |
| EngineInvariant.InitialInv | matchengine/me_market.c:263-324 | the empty engine satisfies the invariant |
| EngineInvariant.MatchKeepsInv | matchengine/me_market.c:388-533 | matching keeps the invariant of the whole engine: frozen balances, uncrossed books, unique ids |
| EngineInvariant.PutKeepsInv | matchengine/me_market.c:155-209 | an order that joins its side locks exactly its collateral, its freeze succeeds, and no market becomes crossed |
| EngineInvariant.CancelKeepsInv | matchengine/me_market.c:212-260 | a cancelled order leaves, and its unfreeze succeeds and returns exactly its collateral |
| EngineRuns.ChangeApplies | matchengine/me_update.c:86-126 | a balance change is accepted exactly when the balance can bear its rounded effect, and then has that effect |
| EngineRuns.ParseMeaning | utils/ut_decimal.c:28-42 | a number is cut toward zero to its precision, by less than one unit, and kept as it is at precision zero |
| EngineRuns.StepKeeps | matchengine/me_server.c:244-679 | every command, live or replayed, keeps the invariant; totals change only by an accepted deposit or withdrawal and by the fees of the deals; a command that is not accepted changes nothing |
| EngineRuns.RunConserves | matchengine/me_market.c:423-507 | over any run of commands each total is what was deposited less the fees of all deals, each rounded up |
| EngineRuns.ReachedFrozen | matchengine/me_market.c:155-260 | in every reachable state the frozen balance of each user and asset is the sum of the collateral of the open orders of the user, over all markets |
| EngineRuns.ReachedBooks | matchengine/me_market.c:401-411 | in every reachable state both sides are in price and time priority, each order satisfies its record equations, and every bid is strictly below every ask |
| EngineRuns.FeeLag | matchengine/me_market.c:459-503 | the fee recorded for a deal never exceeds what was charged and lags by less than one unit |
| Records.DealRecorded | matchengine/me_market.c:440-457 | a deal changes the records of its two parties by exactly its stock, its money and its fee |
| Records.MatchRecords | matchengine/me_market.c:388-533 | a match keeps every open order of every market, and the taker, recording the sum of all its deals so far |
| Records.RunRecords | matchengine/me_market.c:388-1005 | so does any run of commands |
| Records.ChargeLag | matchengine/me_market.c:459-503 | over any deals of an order what was charged is what was recorded for deals as the bid, and less than one unit more for each deal as the ask |
| Records.OrderLife | matchengine/me_market.c:440-503 | in every reachable state each open order has recorded exactly the stock, money and fees of all its deals, and the fees charged for them are those of a bid, or lag those of an ask by less than one unit each |
| Outcomes.LimitReplies | matchengine/me_market.c:645-763 | from the numbers of the command: each reply to a limit order if and only if its condition holds; a refused order changes nothing |
| Outcomes.MarketReplies | matchengine/me_market.c:1008-1109 | as above, for market orders: a buyer states money, so that its least amount depends on the best price |
| Outcomes.OrderDeals | matchengine/me_market.c:388-1005 | the deals of an accepted order, from the command and the open orders: which orders, at which prices, users and ids of both sides, and the fee of each at the rate that its own command states |
| Outcomes.OrderPriority | matchengine/me_market.c:78-101 | an accepted order trades with an open order only after it has used up every open order at a better price and every older one at the same price |
| Outcomes.OrderVolume | matchengine/me_market.c:401-412 | a limit order and a market sell trade all of their amount, or all that is on offer at prices they agree to; a market buy spends all but less than the cost of a unit, or takes all asks |
| Outcomes.OrderBooks | matchengine/me_market.c:645-763 | the books after an accepted order: makers that are used up are gone, the last may stay with less, what is left of a limit order rests with its collateral, a market order never rests, nothing else changes |
| Outcomes.OrderBalances | matchengine/me_market.c:423-507 | every balance after an accepted order: what it was, plus what the deals pay after fees rounded up, less what they take, available from the taker and frozen from the maker, and what the rest locks |
| Outcomes.CancelReplies | matchengine/me_server.c:638-679 | a live cancel is accepted if and only if the order is open and belongs to the user, answered with another user's order if and only if it belongs to another, and not found if and only if it is not open; a replayed one does not ask for the user |
| Outcomes.CancelEffect | matchengine/me_market.c:1112-1120 | an accepted cancel removes exactly that order and moves exactly its collateral from frozen to available of its owner |
| Outcomes.UpdateOutcome | matchengine/me_update.c:86-126 | each reply to a balance update if and only if its condition holds; the new balance is the greatest one in whole units that is not above the exact sum; no other balance changes |
| Outcomes.UnknownReplies | matchengine/me_load.c:133-160 | a command about an asset or a market that is not configured is refused live and passed over in replay |
| Origins.RunOrigins | matchengine/me_market.c:687-718 | over any run each open order carries the market, user, side, price, amount and both fee rates of the command that its id counts, and each deal is explained by the two commands of its orders |
| Origins.ReachedOrigins | matchengine/me_market.c:431-457 | so it is from the empty engine on, with the deals numbered from 1 |
| Holdings.EffectIsFloor | matchengine/me_update.c:86-126 | the effect of a balance change is the greatest number of whole units that is not above it |
| Holdings.RunHoldings | matchengine/me_market.c:423-507 | over any run, for every user: what the user holds of an asset is what it held, plus its own accepted deposits, plus what its own deals gave, less what they took; other users change nothing of it |
| Fates.OrderFates | matchengine/me_market.c:645-763 | after any run no accepted order has traded more than its amount, and each accepted limit order has traded exactly its amount, or was cancelled by its own user, or is open with exactly what it has not traded |
| EdgeCases.UnalignedOrderBreaks | utils/ut_decimal.c:37-39 | with precision zero a number is not rescaled: a concrete accepted order of half a unit after which the frozen balance is not the collateral |
| EdgeCases.FreezeFollowsIff | matchengine/me_market.c:155-209 | an order that joins its side is matched by what is frozen for it if and only if its collateral is a whole number of units |
| EdgeCases.UpdateReadApart | matchengine/me_server.c:257 | a concrete change that is accepted live and in replay: live it adds nothing, replayed it adds 0.05 |
| EdgeCases.UpdateReplaysIff | matchengine/me_load.c:133-185 | replaying an accepted change leads to a like engine if and only if both precisions read it the same |
| MarketStore.MarketT.FindMatchesDictionary | matchengine/me_market.c:1127-1138 | the order dictionary finds an order if and only if it is on a side, and it is that order |
| MarketStore.MarketT.Enter | matchengine/me_market.c:155-209 | in place: an order enters the dictionary, the list of its user and its side together |
| MarketStore.MarketT.Leave | matchengine/me_market.c:212-260 | in place: exactly that order leaves all of them |
| MarketStore.MarketT.Write | matchengine/me_market.c:440-457 | in place: a changed order shows through the dictionary and its side; its place does not move |
| EngineStore.CorrectDown | matchengine/me_market.c:915-925 | the inner loop ends at the largest whole amount, not above the start, that the money pays for |
| EngineStore.BuyAmount | matchengine/me_market.c:905-934 | the amount that a market buy takes from a maker |
| EngineStore.Engine.Settle | matchengine/me_market.c:459-503 | the balance operations for one party of a trade |
| EngineStore.Engine.Trade | matchengine/me_market.c:413-519 | in place: one trade of a loop is one step of the specification |
| EngineStore.Engine.ExecuteLimitAsk | matchengine/me_market.c:388-533 | in place: the loop ends in the state that the greedy specification gives |
| EngineStore.Engine.ExecuteLimitBid | matchengine/me_market.c:536-642 | as above, for a limit bid |
| EngineStore.Engine.ExecuteMarketAsk | matchengine/me_market.c:766-885 | as above, for a market sell |
| EngineStore.Engine.ExecuteMarketBid | matchengine/me_market.c:888-1005 | as above, for a market buy, which passes over makers it cannot pay |
| EngineStore.Engine.OrderPut | matchengine/me_market.c:155-209 | in place: the order joins and locks its collateral; fails exactly for an order that is no limit order, is known, or cannot be frozen |
| EngineStore.Engine.OrderFinish | matchengine/me_market.c:212-260 | in place: the order leaves and its collateral returns |
| EngineStore.Engine.PutLimitOrder | matchengine/me_market.c:645-763 | in place: the replies and the new state of the specification, in every case |
| EngineStore.Engine.PutMarketOrder | matchengine/me_market.c:1008-1109 | in place: as above, for market orders; what the specification does with the numbers of the command say `Outcomes.MarketReplies`, `Outcomes.OrderDeals`, `Outcomes.OrderBooks` and `Outcomes.OrderBalances` |
| EngineStore.Engine.CancelOrder | matchengine/me_market.c:1112-1120 | in place: as above, for cancellations; who may cancel what says `Outcomes.CancelReplies` |
| EngineStore.Engine.UpdateUserBalance | matchengine/me_update.c:86-126 | in place: a key is used once; a failing change leaves everything as it was |
| EngineStore.Engine.Handle | matchengine/me_server.c:244-679 | in place: each command handler and each log handler does the step of the specification and keeps the invariant; an accepted live command, and no other, gets the next row of the log |
| EngineStore.Engine.AppendOperlog | matchengine/me_operlog.c:165-179 | in place: the next log id and one row with it |
| EngineStore.Engine.ForgetUpdates | matchengine/me_update.c:52-63 | in place: exactly the keys that are old go |
| Replay.ExecuteAlike | matchengine/me_market.c:388-533 | two engines that differ only in recorded fees match alike: recorded fees and `real` do not influence matching |
| Replay.RepresentableReadsSame | matchengine/me_server.c:257 | a change that both precisions can represent is read the same live and in replay |
| Replay.StepReplays | matchengine/me_load.c:394-426 | a command that one engine accepted live is accepted by a like engine, live or in replay, except for an update key that is in use there, and leads to a like engine |
| Restart.ColumnExact | sql/create_trade_log.sql:6-25 | a column keeps a number as it is if and only if its digits fit |
| Restart.ReadBackIff | sql/create_trade_log.sql:1-26 | a number written to a column and read back with its own precision is the same if and only if its digits fit the column, whichever of the two is finer |
| Restart.RowRoundTrip | matchengine/me_dump.c:29-96 | in any configuration, an order written to its row and put back is the same order, but for digits of its fee beyond the column, if and only if its digits fit the columns |
| Restart.SchemaFits | bin/matchengine/config.json:88-99 | in markets with at most 8 digits of stock and money and 4 of fees every open order of every reachable state fits its row |
| Restart.LoadAllOrders | matchengine/me_load.c:17-84 | loading an order table in any row order gives the sorted sides; the freezes, for which there is no balance yet, fail and change nothing |
| Restart.BalancesRestored | matchengine/me_load.c:87-130 | for all precisions: loading a balance table gives every balance to the nearest sixteenth digit, so at most half a unit of the column off, and gives back the balances themselves if and only if all their digits fit |
| Restart.SliceRestores | matchengine/me_persist.c:69-95 | restoring a slice gives back books, balances and counters as the columns keep them; the engine is like the one that was dumped if and only if all digits of orders and balances fit |
| Restart.RestoredInv | matchengine/me_persist.c:69-95 | whatever the balance column loses, frozen balances are restored exactly and the restored engine satisfies the invariant, though orders are loaded before balances |
| Restart.ReplayFollowsRun | matchengine/me_load.c:429-484 | replaying the log of a run on a like engine succeeds if and only if it repeats no update key, and ends like the run |
| Restart.RestartMatchesLive | matchengine/me_persist.c:123-188 | from any engine that satisfies the invariant, itself restarted or not: a restart from a slice of it plus the log after it succeeds if and only if that log repeats no update key, and then ends like the live engine |
| Persist.DumpOrdersList | matchengine/me_dump.c:29-96 | batches of 1000 rows: every order of a side is written, in one statement or several, to the table that is there |
| Persist.DumpOrders | matchengine/me_dump.c:99-147 | all markets, asks and then bids, into one table |
| Persist.BooksTableOk | matchengine/me_dump.c:127-144 | that table holds exactly one row for each open order, under its id and in the order of ids, however the markets come |
| Persist.DumpBalanceDict | matchengine/me_dump.c:149-206 | batches of 1000 rows: every entry is written once, in any order of the walk, under ids that the database gives |
| Persist.DumpToDb | matchengine/me_persist.c:220-280 | what is written is a slice of the engine, ready for the loaders, with the last log id |
| Persist.LoadOrders | matchengine/me_load.c:17-84 | paging by last id reads every row once and does to the engine what the rows say |
| Persist.LoadBalance | matchengine/me_load.c:87-130 | as above, for balances |
| Persist.LoadOperlog | matchengine/me_load.c:429-484 | as above, for the log: stops at a gap in the ids or a failing command, else returns the last id |
| Persist.LoadSlice | matchengine/me_persist.c:69-95 | in place, with any precisions of assets: counters, orders, balances, giving the restored state and the invariant |
| Persist.InitFromSlice | matchengine/me_persist.c:123-188 | in place: the slice and then the day tables of the log; the log goes on from the last id |
| Persist.ReplayDaysIsLog | matchengine/me_persist.c:153-185 | day tables that hold the rows after the last one read, behind any older rows, replay to exactly those commands |
| Persist.RestartFromDays | matchengine/me_persist.c:123-188 | the whole restart from tables, for a slice of any engine that satisfies the invariant: succeeds exactly when no update key is repeated, ends like the live engine, and continues with the next log id |
| Persist.RestartWithoutSlice | matchengine/me_persist.c:133-150 | without a slice only the log of today is read: that fails, or starts from nothing, unless it is the whole log |
| History.HistoryInv | matchengine/me_persist.c:123-188 | over any history of requests, flushes, midnights, slices, crashes and restarts every engine satisfies the invariant, and its books are in price and time priority |
| History.CrashSimulated | matchengine/me_persist.c:123-188 | no command that was flushed or is in the slice is lost by a crash: the next process is like the engine that never stopped at the last of them; it starts if and only if the log after the slice repeats no update key |
| History.HistoryMatchesRun | matchengine/me_persist.c:123-188 | by induction over the restarts of a history: the commands that were not lost are the log of one run without any restart, which ends with the same books, balances and counters; the next restart succeeds if and only if the stated condition holds |
| History.HistoryConserves | matchengine/me_persist.c:123-188 | over such histories each total is what was deposited less the fees of the deals |
| Server.FlushLog | matchengine/me_operlog.c:67-112 | in place: the rows in memory go to the table of the day, in order, behind what it has |
| Server.MakeSlice | matchengine/me_persist.c:400-425 | the database keeps what the specification of a slice says, and all rows in the tables are older |
| Server.InitFromDb | matchengine/me_persist.c:123-188 | a new process starts from what the database keeps, with a slice or without, or fails exactly when the specification says so |
| Server.PlayHistory | matchengine/me_persist.c:123-188 | the handlers, the flush, the dump and the restart together play any history as the specification says: same failures, same engine, and the log goes on with the next id |
| RestartCases.SaleNotRestored | bin/matchengine/config.json:88-99 | a concrete reachable state of the configured market BTCBCH: a sale that leaves twenty digits, which every slice rounds up, so that the restored engine holds more |
| RestartCases.RoundingStopsRestart | sql/create_trade_log.sql:1-7 | a concrete history whose slice rounds a deposit away: replaying the withdrawal of it fails and the server does not start, though no update key repeats |
| RestartCases.NightForgets | matchengine/me_persist.c:146-150 | a concrete history without a slice: after midnight the server starts from nothing |
| DepthDiff.GetListDiff | accessws/aw_depth.c:91-192 | the two-cursor loop computes the difference |
| DepthDiff.DiffMeaning | accessws/aw_depth.c:91-192 | what a difference says at each price, for strictly sorted lists |
| DepthDiff.DiffApplies | accessws/aw_depth.c:91-206 | applying a difference, with amount 0 deleting, and keeping the first `limit` levels turns the first list into the second |
| DepthDiff.DiffEmptyIff | accessws/aw_depth.c:194-206 | for strictly sorted lists of at most `limit` positive levels the difference is empty if and only if the lists agree |
| DepthFeed.DepthServer.OnSubscribe | accessws/aw_depth.c:425-498 | in place: a session leaves all entries; with a limit and an interval whose number is allowed it joins one, and gets the snapshot if there is one |
| DepthFeed.DepthServer.OnReply | accessws/aw_depth.c:226-259 | in place: nothing, a whole depth, or a difference is sent to the sessions of the entry |
| DepthFeed.DepthServer.OnError | accessws/aw_depth.c:261-312 | in place: a failed request drops the entry |
| DepthFeed.DepthServer.OnTimer | accessws/aw_depth.c:319-355 | in place: entries without sessions go, and exactly the others are requested |
| DepthFeed.RunInSync | accessws/aw_depth.c:226-259 | over every run of subscriptions, replies, errors and timers each subscriber of an entry with a snapshot holds exactly the snapshot |
| DepthFeed.RunSubscribes | accessws/aw_depth.c:425-472 | after any run a session subscribes to exactly the entry it asked for last, if its limit and interval are configured and no request for it has failed since; there are only entries that the configuration allows |
| DepthFeed.ReplySends | accessws/aw_depth.c:226-259 | a reply is sent to the subscribers as nothing if they have it, whole if it is the first or the last whole one is sixty seconds old, else as a difference that leads to it |
| DepthFeed.SubscribersHoldReply | accessws/aw_depth.c:226-259 | after a reply at the end of any run all subscribers of the entry hold exactly that reply |
| DepthLevels.QuotientBounds | matchengine/me_server.c:831-835 | the quotient times the interval is the greatest multiple at or below a price |
| DepthLevels.LevelMeaning | matchengine/me_server.c:831-835 | a price is put under the one multiple of the interval that is less than an interval above it for asks, below it for bids; without an interval under itself |
| DepthLevels.SameLevel | matchengine/me_server.c:838-845 | the loop test, order price against level price, decides exactly whether an order is of the level; else its level is further on |
| DepthLevels.LevelsListed | matchengine/me_server.c:752-886 | prices of levels are strictly monotone and amounts positive |
| DepthLevels.LevelAmounts | matchengine/me_server.c:752-886 | each level has the sum of what is left of exactly the orders put under its price |
| DepthLevels.LevelPrices | matchengine/me_server.c:752-886 | there is a level for exactly the prices that orders are put under |
| DepthLevels.LevelsTotal | matchengine/me_market.c:1152-1174 | without a limit the levels add up to the market status |
| DepthLevels.SideDepth | matchengine/me_server.c:756-780 | the nested loop of `get_depth` gives the first `limit` groups by price, each with the sum of what its orders have left |
| DepthLevels.SideDepthMerge | matchengine/me_server.c:822-851 | the nested loop of `get_depth_merge`: levels are multiples of the interval in order, each with the sum of what is left of exactly the orders within one interval of it; an order without a level is past the last of `limit` levels |
| DepthLevels.FirstIsGood | matchengine/me_server.c:889-945 | a depth reply is what the subscription protocol needs; a limit leaves a prefix |
| DepthLevels.GetDepth | matchengine/me_server.c:889-945 | both sides of a reply, for any interval: levels at multiples of it, or at prices of orders without one, each with what exactly its orders have left; an order without a level is past the last of `limit` levels |
| DepthLevels.MarketGetStatus | matchengine/me_market.c:1152-1174 | counts and amounts of both sides |
| Framing.LERoundTrip | utils/ut_rpc.c:13-41 | a little-endian field can be read back when the number fits |
| Framing.DecodePacked | utils/ut_rpc.c:43-85 | decoding what was packed, with anything after it, gives the package and its size |
| Framing.DecodePrefix | utils/ut_rpc.c:13-22 | a proper prefix of a package is never taken for a package or an error |
| Framing.DecodeStable | utils/ut_rpc.c:13-41 | later bytes do not change a decision of the decoder |
| Framing.HeadFields | utils/ut_rpc.c:62-80 | each field of the head is at its own place |
| Framing.WholeIsPacked | utils/ut_rpc.c:13-41 | only what was packed is taken for a package: byte for byte, with the right checksum |
| Framing.DecodeRefuses | utils/ut_rpc.c:18-27 | bytes that do not begin with the mark are refused; with it, more bytes, a package or an error come exactly if the announced bytes are not there, are there with the right checksum, or with a wrong one |
| Framing.AnnouncedInside | utils/ut_rpc.c:13-41 | for any header: a package that is accepted lies within the bytes it takes if and only if its header announces less than 2^32; below that the answer is that of `Decode` |
| Framing.PackedInside | utils/ut_rpc.c:43-85 | a package that was packed announces its own size, below 2^32 |
| Framing.RpcDecodeStable | utils/ut_rpc.c:13-41 | later bytes do not change an answer, also where the size wraps |
| Streams.ParseMore | network/nw_ses.c:104-156 | reading on takes up where reading stopped for want of bytes: the packages of a stream do not depend on how it is cut |
| Streams.ParsePacking | network/nw_ses.c:130-152 | of any part of a stream of packed messages that fit the buffer exactly the whole ones are read, in order, without an error |
| Streams.ParseTooLarge | network/nw_ses.c:104-156 | a package that does not fit the read buffer is an error, as soon as the buffer is full and not before |
| Streams.ArrivedAll | network/nw_ses.c:104-156 | all bytes give all messages |
| Buffers.NwBuf.Write | network/nw_buf.c:25-32 | in place: as many bytes as fit are added behind those that wait |
| Buffers.NwBuf.Shift | network/nw_buf.c:34-43 | in place: the bytes move to the front of the array unchanged |
| Buffers.NwBufList.Write | network/nw_buf.c:128-157 | the chain takes all bytes in order, or stops exactly when the limit is reached and the last buffer is full |
| Buffers.NwBufList.Shift | network/nw_buf.c:181-192 | the head of the chain goes, the rest stays |
| Sessions.OutSocket.WriteStream | network/nw_ses.c:53-70 | whatever the kernel takes, the bytes reported as written are a prefix of those given, and went out in order |
| Sessions.Sender.Send | network/nw_ses.c:421-455 | while open, what was offered is on the wire or waits in order, and writing is watched exactly when something waits; a failure closes the session |
| Sessions.Sender.CanWrite | network/nw_ses.c:248-283 | as above; it stops only when nothing waits or the socket is full |
| Sessions.Sender.Close | network/nw_ses.c:557-575 | the waiting buffers are dropped |
| Sessions.RpcSend | utils/ut_rpc.c:87-95 | a message that can be packed is offered whole; one with too large a body is refused and changes nothing |
| Sessions.Receiver.CanRead | network/nw_ses.c:92-156 | delivered are exactly the packages of what was read; what is left over is at the front of the buffer, which has room; closes only for an error, the peer, or the callback |
| Sessions.Receiver.Deliver | network/nw_ses.c:130-152 | the inner loop delivers every whole package |
| Sessions.ExactlyOnce | network/nw_ses.c:104-156 | whatever part of the wire has been read, exactly the whole messages in it were delivered, in order; all of them once nothing waits |
| Sessions.Run | network/nw_ses.c:328-335 | any run of a connection: the accepted messages are the first of those posted, and all of them while the sender is open; delivered are exactly those that are whole in what was read; without failures and limits both ends stay open |
| Sessions.Drain | network/nw_ses.c:248-283 | progress: from any point of any run, once the waiting buffers are written, the wire is carried over and the other end is read without failures, nothing waits and everything accepted has been delivered |
| JobPool.Reached | network/nw_job.c:18-99 | in every interleaving: counts are list lengths, jobs start in order, each job is in exactly one place, pending requests imply a thread that is not blocked, pending replies imply a readable pipe or a drain under way |
| JobPool.OnePlace | network/nw_job.c:36-60 | each job that was added is in exactly one of request list, worker, reply list, main thread or finished |
| JobPool.StepOrdered | network/nw_job.c:34-60 | each step keeps the order of starts and of replies |
| JobPool.StepAwake | network/nw_job.c:27-32 | each step keeps that at least as many threads are about to look for work as there are requests, while any is blocked |
| JobPool.StepReplies | network/nw_job.c:45-99 | each step keeps that no reply is forgotten, though a write to a full pipe fails |
| JobPool.RunKeeps | network/nw_job.c:18-99 | the invariant holds at every point of every interleaving |
| JobPool.NothingLeft | network/nw_job.c:18-99 | when the pool can do nothing more of itself every job is finished |
| JobPool.EveryScheduleFinishes | network/nw_job.c:18-99 | no schedule of the threads goes on for ever, and where one ends every job is finished |
| JobLists.JobList.Append | network/nw_job.c:45-58 | in place: the linked list gets the entry at its end |
| JobLists.JobList.TakeHead | network/nw_job.c:35-43 | in place: the linked list loses its first entry |
| JobLists.NwJob.Add | network/nw_job.c:178-204 | in place: the step of the same name |
| JobLists.NwJob.Look | network/nw_job.c:26-43 | in place: the step of the same name; no entry means that the thread waits |
| JobLists.NwJob.Done | network/nw_job.c:45-59 | in place: the step of the same name |
| JobLists.NwJob.Write | network/nw_job.c:59-60 | in place: the step of the same name |
| JobLists.NwJob.Read | network/nw_job.c:70-75 | in place: the step of the same name |
| JobLists.NwJob.Pop | network/nw_job.c:77-92 | in place: the step of the same name |
| HttpBody.FeedSane | utils/http_parser.c:1934-2052 | one byte keeps the assertions of the states; a size digit is added without wrap-around |
| HttpBody.RunSane | utils/http_parser.c:1934-2052 | for any bytes every assertion of the body states holds, and a chunk size never reaches the value that means none |
| HttpBody.RefusedBytes | utils/http_parser.c:1934-2052 | each error that a byte of the body states can cause, if and only if its condition holds |
| HttpBody.UnhexIsDigit | utils/http_parser.c:212-233 | a byte is read as a value exactly if it is the small or capital digit for it, or a zero from 128 on |
| HttpBody.WritesNumber | utils/http_parser.c:1956-1985 | digits are read as a number if and only if they write it in base sixteen, the last one its remainder and those before it its quotient |
| HttpBody.HexOfWrites | utils/http_parser.c:1950-1985 | the usual hexadecimal writing of a number is read as that number |
| HttpBody.DigitsRun | utils/http_parser.c:1950-1985 | the digits of a size are taken for the number that they fold to if and only if that is below the limit; else they are refused; that number is the one they write says `HttpBody.WritesNumber` |
| HttpBody.LineRun | utils/http_parser.c:1934-2013 | a size line is read to its exact size, and the parameters are passed over |
| HttpBody.ChunkRun | utils/http_parser.c:2015-2052 | a chunk adds its data to the body and is notified once |
| HttpBody.EncodingRun | utils/http_parser.c:1836-2052 | decoding an encoding gives the payload, each size, and one completion with the last byte |
| HttpBody.EndsEncoding | utils/http_parser.c:1934-2052 | only encodings end a message |
| HttpBody.IdentityRun | utils/http_parser.c:1882-1917 | a body of known length is taken as it is and completes the message with its last byte |
| HttpBody.EofRun | utils/http_parser.c:1919-1923 | without a length all bytes belong to the body |
| HttpBody.RunAppend | utils/http_parser.c:629-708 | the state after a stream does not depend on where it is cut |
| HttpParsers.HttpParser.OneByte | utils/http_parser.c:1836-2013 | in place: the states that take one byte |
| HttpParsers.HttpParser.Execute | utils/http_parser.c:629-708 | in place: a segment is worth its bytes one after the other; the pieces given to the callback make up the body; on an error the piece not yet given is lost |
| HttpParsers.ExecuteAll | utils/http_parser.c:629-708 | however a stream is cut into segments, the callbacks get the same body, sizes and notifications |
| HttpParsers.DecodeChunked | utils/http_parser.c:1934-2052 | any payload in any chunks whose size lines write the sizes in base sixteen, cut into any segments: the pieces make up the payload, the announced sizes are those of the chunks, and the message is complete once |
| HttpParsers.HeadDecides | utils/http_parser.c:1836-1880 | what the end of the headers decides, case by case: no body, chunks, a length, or all up to the end of the stream |
| HttpParsers.DecodePlain | utils/http_parser.c:1882-1923 | a body without chunks, cut into any segments: the pieces make it up, and it is complete exactly when all announced bytes are there |
| Kline.BarMeaning | marketprice/mp_kline.c:9-37 | a bar holds the first, last, highest and lowest price, the volume and the turnover of its deals |
| Kline.MergeIsBar | marketprice/mp_kline.c:39-48 | merging the bars of two runs of deals gives the bar of both together |
| Kline.MergeFirst | marketprice/mp_message.c:924-927 | starting a bar at the open of the first bar found and merging that gives the bar itself |
| KlineStore.TouchedExact | marketprice/mp_message.c:406-458 | updating the bar of the stretch of a deal keeps every bar that of exactly its deals |
| KlineStore.CoarseIsMerge | marketprice/mp_message.c:420-458 | the bar of a minute is the merge of its seconds, that of an hour the merge of its minutes |
| KlineStore.JoinsIsBar | marketprice/mp_message.c:918-940 | merging the bars of a range gives the bar of all deals of the range |
| KlineStore.ClearDict | marketprice/mp_message.c:739-749 | the walk keeps exactly the bars from the start on |
| KlineStore.GetLastKline | marketprice/mp_message.c:897-907 | the bar found closes at the price of the last deal of the range; none is found exactly when there is no deal |
| KlineStore.RowsMeaning | marketprice/mp_message.c:1035-1121 | rows come in the order of time at the windows of the query, from the first with deals in it or before it; each is the bar of its deals or flat at the last price before it |
| KlineStore.MarketInfo.Update | marketprice/mp_message.c:406-462 | in place: the second, minute and hour bars stay those of exactly their deals |
| KlineStore.MarketInfo.Clear | marketprice/mp_message.c:751-762 | in place: exactly the bars within retention stay, and they stay exact |
| KlineStore.MarketInfo.GetMarketStatus | marketprice/mp_message.c:909-944 | counts every deal from the start of the period exactly once: up to now if no deal is stamped later, in general up to the end of the minute under way |
| KlineStore.MarketInfo.GetKlineSec | marketprice/mp_message.c:1035-1076 | each row is the bar of the deals of its window; an empty window is flat at the previous price and without volume |
| KlineStore.MarketInfo.GetKlineMin | marketprice/mp_message.c:1078-1121 | as above, from minute bars |
| Chains.LinkHolds | utils/ut_dict.c:176-179 | an entry at the front of its chain: no duplicate key, the right slot |
| Chains.UnlinkHolds | utils/ut_dict.c:203-227 | an entry unlinked: exactly that key is gone |
| Chains.MoveChain | utils/ut_dict.c:98-109 | moving the entries of a chain to a larger table loses and repeats none |
| Chains.MaskIsRemainder | utils/ut_dict.c:153 | a mask of a size that is a power of two takes the remainder; all sizes of both tables are powers of two |
| DictStore.NextPower | utils/ut_dict.c:56-64 | the least power of two, from four on, that is at least what is asked for |
| DictStore.Dict.CheckClear | utils/ut_dict.c:125-149 | in place: the entries of a chain from before the mark go; what the dictionary means does not change |
| DictStore.Dict.Find | utils/ut_dict.c:151-164 | finds exactly what was added after the last mark |
| DictStore.Dict.Expand | utils/ut_dict.c:89-116 | in place: every entry is in the larger table, though the loop stops by its count |
| DictStore.Dict.Add | utils/ut_dict.c:166-185 | in place: the map gets the key if it was not there |
| DictStore.Dict.Replace | utils/ut_dict.c:187-201 | in place: the map gets the value either way |
| DictStore.Dict.Delete | utils/ut_dict.c:203-227 | in place: the key is gone; the answer also counts an entry from before the mark |
| DictStore.Dict.MarkClear | utils/ut_dict.c:241-244 | in place: the map is empty while no entry is touched |
| DictStore.DictIterator.Next | utils/ut_dict.c:277-294 | an entry not seen before, or none when all have been seen |
| DictStore.Walk | utils/ut_dict.c:263-294 | each entry comes exactly once, even when the current one is deleted as it comes |
| DictStore.Clear | utils/ut_dict.c:229-239 | the table is empty, and so is its count |
| StateTable.SomeFree | network/nw_state.c:112-122 | with fewer entries than ids an id is free |
| StateTable.State.Get | network/nw_state.c:155-166 | finds exactly the pending entries |
| StateTable.State.GetAvailableId | network/nw_state.c:112-122 | ends, across the wrap-around, with an id that is neither zero nor in use |
| StateTable.State.ExpandIfNeeded | network/nw_state.c:44-74 | in place: nothing is lost |
| StateTable.State.Add | network/nw_state.c:124-153 | in place: refused exactly for an id in use or a full table, else one entry more |
| StateTable.State.Del | network/nw_state.c:180-189 | in place: exactly that entry is gone, and the count is exact |
| StateTable.State.StateRemove | network/nw_state.c:83-102 | in place: exactly that entry is gone |

## Left out

- EngineRuns.StepKeeps: takes order commands whose numbers land on the grids of their market, because `decimal(str, 0)` does not put them there; a concrete failing command is `EdgeCases.UnalignedOrderBreaks`. So do the modules `Outcomes`, `Origins`, `Holdings` and `Fates`.
- Restart.RestartMatchesLive: takes a slice whose digits fit the columns and balance changes that both precisions read the same; where they do not, `Restart.SliceRestores` and `EdgeCases.UpdateReplaysIff` say exactly what happens. Digits of recorded fees beyond the fee column are lost, which changes nothing else.
- Restart.ColumnExact: a DECIMAL(30,s) column also ends at 30-s digits before the point (14 for balances and traded money, 18 for recorded fees, 22 for prices and amounts, 26 for fee rates); larger numbers, which the database would refuse or cut, are not modelled.
- Restart.RestoredInv: takes open orders whose digits fit their columns, as those of every market with at most 8 digits of stock and money and 4 of fees do.
- History.HistoryMatchesRun: takes markets of at most 8 digits of stock and money and 4 of fees; a flush is stored at once, a slice is of one moment, and a crash falls between two events.
- Framing.Decode: a header that announces 2^32 bytes or more is refused with -3 in the streams and sessions, where the code goes on with the size modulo 2^32, as `Framing.RpcDecode` does; no such header comes from `rpc_pack`.
- KlineStore.MarketInfo.GetMarketStatus: opens and closes are stated for deals in the order of time; bars outside retention may be missing, so the range must be kept.
- KlineStore.MarketInfo.GetKlineSec: as for the status, for windows within retention; the hour query and the day, week and month bars depend on local time and are not modelled.
- StateTable.State.Del: timers and callbacks are not modelled; a timeout is a removal.
- Decimals: results are taken to fit the 34 digits of the context; stock and money of a market are taken to be different assets, which nothing in the program checks.
- Counters of 64 bits (orders, deals, log, dictionary stamps) and dictionary sizes are unbounded numbers.
- The skip list (`utils/ut_skiplist.c`) is a sequence in comparator order; order pointers are ids looked up in the dictionary, which shows sharing but not addresses.
- Hash chains are sequences in an array of chains, as the pointers of a chain are private to its table; hash values are any function.
- The four matching loops share one method for a trade, `EngineStore.Engine.Trade`, which the program repeats in each; the query loops for seconds and minutes share `KlineStore.MarketInfo.Query`.
- Timestamps in orders, messages pushed to clients, JSON, SQL text and history rows other than the deals themselves: they do not feed back into the engine.
- Databases are sequences of rows with the rounding of their columns; message brokers, caches, sockets and clocks are parameters or scripts.
- Update keys expire at any time in a run (`Forget`), which covers the daily timer; their table is not in a slice.
- The early error returns of `order_finish` and of the matching loops are not modelled as replies: the conditions that lead to them are proved not to occur.
- Datagram and packet sessions, passing of descriptors, connecting and accepting; the buffer pool, which only recycles memory.
- The checksum of a package is any function of its bytes. The integer conversions of headers are those of a little-endian machine.
- Shutting the worker pool down: the model ends where shutdown begins.
- HTTP header and URL parsing, trailer fields, and callbacks that fail or pause; the next message on a connection.
- Shared memory allocation failures are taken not to happen.
