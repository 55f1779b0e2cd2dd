# KuCoin take-profit bot: accounts, orders and symbol helpers in Dafny

This project models the bookkeeping core of a bot that buys the same tokens for several
KuCoin accounts and then keeps trying to sell each bought order at a take-profit price.

- **Orders** (`orders.dfy`, module `Orders`). An order carries an id, an optional kind
  (market or limit), an optional side (buy or sell), an integer health and an `alive` flag.
  `lower_health` is a method of the class `Order`. The `Display` texts of kinds and sides
  are functions. An order placed by the exchange starts with health 0 and alive.
- **The exchange as the account sees it** (`exchange.dfy`, module `Exchange`). Every call
  to the exchange is replaced by an answer supplied from outside (an oracle):
  - a market buy returns an order id or fails;
  - a balance fetch returns a balance or fails;
  - each order visited by a sell pass either fails its price/quantity query or gets a
    price and a quantity, after which the limit sell is accepted or refused.

  The requests the account sends are recorded, so their symbol, amount, price and side can
  be stated.
- **An account** (`user_spec.dfy`, `user.dfy`).
  - `UserSpec` states each operation of a user on values. The value is an `Account`: alive,
    health, balance, the views of its orders, and the `all_sold` latch.
  - The class `Users.User` updates its fields in place. Each of its methods is proved to
    leave `State()` equal to the matching `UserSpec` function of the old state and the
    exchange's answers.
  - The class invariant `Valid()` includes `alive == (health > 0)`, so every operation
    keeps it.
- **The account pool** (`user_manager_spec.dfy`, `user_manager.dfy`).
  - `UserManagerSpec` states the pool operations on sequences of accounts.
    `Settle` states the retry loop of `execute_arbitrage` given the answers of its first
    rounds.
  - The class `UserManagers.UserManager` owns the users, which share no objects. It runs
    each operation user by user and is proved to follow those functions.
- **Precisions** (`exchange_info.dfy`, module `ExchangeInfo`). `num_sig_digits` is a
  loop proved against the reference definition "characters other than '.' after the first
  '.'". The map of precisions per symbol is a loop proved equal to a fold.
- **Symbol names** (`token_info.dfy`, module `TokenInfo`). These functions upper-case a
  token name and append `-BTC`.

The code behaves as follows on these points, and so does the model:

- `balance_perc` is read from the same `TAKE_PROFIT_PERC` setting as `take_profit_perc`.
- Every market buy in a batch spends `balance * balance_perc`. The amount is not divided
  by the number of symbols.
- A sell pass visits every order of the account, whatever its symbol and whether it is
  still alive.
- A failed price query lowers the order's health but does not count as an error of the
  account. So a pass in which every query failed still sets `all_sold`.
- Orders start with health 0, so one failed query kills an order.
- No amount or price is ever truncated to the symbol's precision. The precision table is
  built but nothing in the core uses it.
- `try_place_sell_limit` has no guard, and no `remove_dead` runs between the calls of
  `resolve_place_sell_order`. So a user that is already finished or dead still runs every
  sell pass of every call. It places a take-profit sell again for each order whose query
  succeeds (`Users.User.TryPlaceSellLimit`, `UserSpec.SellAllRequestsCount`).
- The `all_sold` latch is never reset, not even by a later batch of buys. Once every user
  has latched, each later `execute_arbitrage` ends after its first call, whatever the
  exchange refuses.
- With an empty token list no sell pass runs. While any user is alive and unlatched,
  `execute_arbitrage` then never ends.

## Model

| member | source | states |
|---|---|---|
| Orders.KindText | src/exchange/order.rs:7-14 | the text of a kind is non-empty, and its first letter tells the kinds apart |
| Orders.SideText | src/exchange/order.rs:22-29 | the text of a side is non-empty, and its first letter tells the sides apart |
| Orders.KindTextInjective | src/exchange/order.rs:7-14 | Market renders as "market" and Limit as "limit"; two kinds render alike iff they are equal |
| Orders.SideTextInjective | src/exchange/order.rs:22-29 | Buy renders as "buy" and Sell as "sell"; two sides render alike iff they are equal |
| Orders.PlacedView | src/exchange/kucoin/kucoin.rs:116-122 | an order returned by the exchange has the requested id, kind and side, health 0, and is alive |
| Orders.Order.Placed | src/exchange/kucoin/kucoin.rs:86-92 | the constructed order's fields are those of `PlacedView` |
| Orders.Lowered | src/exchange/order.rs:47-54 | health drops by exactly 1; alive afterwards iff alive before and health still positive, so health <= 0 implies dead and no order is revived; id, kind and side are unchanged |
| Orders.Order.LowerHealth | src/exchange/order.rs:47-54 | the order's fields become `Lowered` of the old fields |
| Orders.PlacedOrderDiesAtFirstLowering | src/exchange/order.rs:48-53 | a freshly placed order is dead, with health -1, after one health loss |
| UserSpec.AfterLowerHealth | src/user/user.rs:63-68 | health drops by exactly the amount; alive afterwards iff alive before and health positive; orders, balance and latch unchanged |
| UserSpec.LowerHealthKeepsConsistent | src/user/user.rs:63-68 | with a non-negative amount, `alive == (health > 0)` is preserved |
| UserSpec.AliveOrders | src/user/user.rs:43-45 | the result holds exactly the alive orders of the input and is no longer than it |
| UserSpec.AliveOrdersAppend | src/user/user.rs:43-45 | filtering distributes over concatenation, so relative order is kept |
| UserSpec.AliveOrdersOfLive | src/user/user.rs:43-45 | a list of live orders is left unchanged |
| UserSpec.AliveOrdersIdempotent | src/user/user.rs:43-45 | filtering twice equals filtering once |
| UserSpec.AfterRemoveDead | src/user/user.rs:43-45 | every remaining order is alive, every alive order remains, and no other field changes |
| UserSpec.AfterRefresh | src/user/user.rs:52-62 | a failed fetch costs exactly 1 health and keeps the balance; a successful one sets the balance and keeps the health; afterwards only the alive orders remain; the latch is unchanged; no account is revived |
| UserSpec.RefreshKeepsConsistent | src/user/user.rs:52-62 | refresh preserves `alive == (health > 0)` |
| UserSpec.AfterBuyToken | src/user/user.rs:74-95 | a dead account is unchanged; a success appends exactly one placed market-buy order at the end and keeps earlier orders and health; a failure keeps the orders and costs 1 health |
| Exchange.BuyAmount | src/user/user.rs:83 | the funds of every market buy: the balance times the balance fraction, not divided by the number of symbols; `Users.User.BuyToken` and `UserSpec.BuyRequestsShape` state where it is used |
| UserSpec.AfterBuyTokens | src/user/user.rs:69-73 | `buy_token` applied for each symbol in order; its properties are proved in `BuyTokensBudget`, `BuyTokensKeepsConsistent`, `BuyAliveShrinks`, `BuyRequestsAllSucceed` and `ConsecutiveBuyFailures` |
| UserSpec.BuyRequests | src/user/user.rs:81-85 | the market orders a batch sends; `BuyRequestsShape` proves they are buys of the first symbols in order at one amount, one per symbol while the account is alive |
| UserSpec.BuyTokensBudget | src/user/user.rs:69-73 | over k symbols, orders appended plus health lost is at most k; earlier orders, balance and latch are kept; health never rises and no account is revived |
| UserSpec.BuyTokensKeepsConsistent | src/user/user.rs:69-73 | a batch of buys preserves `alive == (health > 0)` |
| UserSpec.BuyAliveShrinks | src/user/user.rs:77-80 | an account dead after some buys was already dead after any longer prefix of them: buying never revives |
| UserSpec.BuyRequestsShape | src/user/user.rs:69-95 | the market orders of a batch are buys of the first symbols of the list, in order, one per symbol, all spending the same undivided amount; the k-th symbol is bought exactly when the account is alive after the first k buys |
| UserSpec.BuyRequestsAllSucceed | src/user/user.rs:69-95 | a live account whose buys all succeed stays alive, gains one order per symbol, and sends one request per symbol |
| UserSpec.ConsecutiveBuyFailures | src/user/user.rs:90-93 | n failed buys on a live account cost min(n, health) and leave it alive iff n < health, with its orders unchanged |
| UserSpec.TenthFailureKills | src/user/user.rs:27-34 | a new account (health 10) survives a run of failed buys iff the run is shorter than 10 |
| UserSpec.OrderAfterSell | src/user/user.rs:107-125 | a failed query lowers the order's health; a placed sell retires the order without touching its health; a refused sell leaves it as it was; id, kind and side are kept; no order is revived |
| UserSpec.SellErrors | src/user/user.rs:106-124 | the error count over n orders is at most n |
| UserSpec.SellErrorsZeroIff | src/user/user.rs:110-124 | the count is zero iff no limit order was refused; failed queries do not count |
| UserSpec.OrdersAfterPass | src/user/user.rs:107-125 | a pass keeps the number of orders and treats the order at every position, alive or not |
| UserSpec.AfterSellPass | src/user/user.rs:102-131 | orders are treated pointwise; health drops by exactly the number of refused limit orders; the latch is set when there were none and is never reset; balance kept; no revival |
| Exchange.TakeProfitPrice | src/user/user.rs:116 | the price of a take-profit sell: the queried price plus the take-profit fraction of it; `UserSpec.SellRequestsShape` states its use |
| UserSpec.SellRequestFor | src/user/user.rs:108-116 | the limit order sent for one visited order: none after a failed query, one sell otherwise; see `SellRequestsShape` |
| UserSpec.SellRequests | src/user/user.rs:108-116 | the limit orders of a pass in visiting order; `SellRequestsMatchQueries` proves they follow the successful queries one to one |
| UserSpec.QueriedPositions | src/user/user.rs:107-115 | the positions of the visited orders whose price/quantity query succeeded: all of them, and only them, each below n, in strictly increasing order; n positions when every query succeeded |
| UserSpec.SellRequestsMatchQueries | src/user/user.rs:108-116 | there are as many limit orders as successful queries, and the m-th is a sell for the pass's symbol of the m-th successful query's quantity at its price marked up by the take-profit fraction |
| UserSpec.SellRequestsShape | src/user/user.rs:108-116 | the one-to-one match with the successful queries, in visiting order; hence every limit order is a sell for the pass's symbol from one successful query, at most one per order, and exactly one per order when every query succeeded |
| UserSpec.SellPassKeepsConsistent | src/user/user.rs:126-130 | a sell pass preserves `alive == (health > 0)` |
| UserSpec.AllQueriesFailedStillLatches | src/user/user.rs:108-130 | when every query fails, the latch is set, account health is unchanged, and every order is lowered |
| UserSpec.SoldOrderStillCosts | src/user/user.rs:107-127 | an order that is no longer alive is still visited, and a refused sell for it costs health and withholds the latch |
| UserSpec.SellAllMonotone | src/user/user.rs:96-101 | sell passes keep the number of orders and the balance; they never revive, never reset the latch, never raise health, and preserve `alive == (health > 0)` |
| UserSpec.AfterSellAll | src/user/user.rs:96-101 | one sell pass per symbol in order; its properties are proved in `SellAllMonotone`, `DeadAccountFinished` and `CleanPassFinishes` |
| UserSpec.SellAllRequests | src/user/user.rs:96-101 | the limit orders of all passes of `try_place_sell_limit`, one pass per symbol, concatenated in order; its properties are proved in `SellAllRequestsSymbols` and `SellAllRequestsCount` |
| UserSpec.SellAllRequestsSymbols | src/user/user.rs:96-101 | every limit order sent over the passes is a sell for one of the given symbols |
| UserSpec.SellAllRequestsCount | src/user/user.rs:96-101 | over n orders, at most n sells per symbol are sent, and exactly n per symbol when every query succeeded; the count does not depend on whether the account is alive or latched |
| UserSpec.DeadAccountFinished | src/user/user.rs:96-101 | a dead account is finished whatever the answers |
| UserSpec.CleanPassFinishes | src/user/user.rs:96-131 | one pass without a refused limit order leaves the latch set at the end of `try_place_sell_limit` |
| Users.LiveOrders | src/user/user.rs:43-45 | an order object is kept iff it is in the list and its `alive` flag is set |
| Users.LiveOrdersViews | src/user/user.rs:43-45 | the views of the kept objects are `AliveOrders` of the list's views, so the order of the list is kept |
| Users.VisitOne | src/user/user.rs:107-125 | one loop iteration changes the visited order as `OrderAfterSell` says and leaves every other order alone; it advances the error count and the sent limit orders by one position |
| Users.VisitOrders | src/user/user.rs:106-125 | the sell loop leaves the orders as `OrdersAfterPass` of their old views; its error count is `SellErrors` and its requests `SellRequests` over all orders |
| Users.User.constructor | src/user/user.rs:23-42 | a new user is alive with health 10, the fetched balance, no orders and the latch unset; both percentages come from the TAKE_PROFIT_PERC setting |
| Users.User.RemoveDead | src/user/user.rs:43-45 | the new state is `AfterRemoveDead` of the old, and the invariant is kept |
| Users.User.Refresh | src/user/user.rs:52-62 | the new state is `AfterRefresh` of the old state and the balance answer |
| Users.User.LowerHealth | src/user/user.rs:63-68 | health drops by exactly the amount; alive afterwards iff alive before and health positive; no other field changes |
| Users.User.BuyToken | src/user/user.rs:74-95 | the new state is `AfterBuyToken`; a live user sends one market buy of `balance * balance_perc` for the symbol, and a dead one sends nothing |
| Users.User.BuyTokens | src/user/user.rs:69-73 | the new state is `AfterBuyTokens`; the requests sent are `BuyRequests` at the amount from the starting balance |
| Users.User.TryPlaceOneSellLimit | src/user/user.rs:102-131 | the new state is `AfterSellPass`; the limit orders sent are `SellRequests` over all orders |
| Users.User.SettlePass | src/user/user.rs:126-130 | with errors, health drops by their number; without, the latch is set; nothing else changes |
| Users.User.TryPlaceSellLimit | src/user/user.rs:96-101 | the new state is `AfterSellAll`; the answer is `all_sold || !alive` of the new state; the limit orders sent are `SellAllRequests` over the old number of orders, with no guard on `alive` or `all_sold` |
| UserManagerSpec.PoolRefresh | src/user/user_manager.rs:19-23 | `refresh` on every account with its own balance answer, keeping the list order; see `PoolRefreshKeepsConsistent` |
| UserManagerSpec.PoolBuy | src/user/user_manager.rs:24-33 | every account buys the same symbol list with its own answers; see `PoolBuyIsolated` and `PoolBuyKeepsConsistent` |
| UserManagerSpec.PoolSell | src/user/user_manager.rs:34-42 | every account runs its sell passes, none skipped; see `PoolSellKeepsConsistent` and `CleanPassFinishesUser` |
| UserManagerSpec.Settle | src/user/user_manager.rs:43-48 | the retry loop over the given calls; its properties are proved in `SettleStopsAtFirstSuccess`, `SettleKeepsConsistent`, `EmptyPoolSettlesAtOnce`, `DeadPoolSettlesAtOnce` and `NoSymbolsNeverSettle` |
| UserManagerSpec.PoolAfter | src/user/user_manager.rs:45 | the pool after the first k calls of `resolve_place_sell_order` has as many accounts as before; its meaning is stated by `SettleStopsAtFirstSuccess` |
| UserManagerSpec.SettleStopsAtFirstSuccess | src/user/user_manager.rs:43-48 | the accounts are `PoolAfter` the calls made; no earlier call found every account finished; the loop has ended iff the last call made found every account finished; when it has not ended, every given call was made |
| UserManagerSpec.NoSymbolsNeverSettle | src/user/user_manager.rs:43-48 | with no symbols, a pool holding a live unlatched user never ends the loop, whatever the number of calls |
| UserManagerSpec.PoolRefreshKeepsConsistent | src/user/user_manager.rs:19-23 | refreshing the pool keeps every account consistent and leaves only live orders |
| UserManagerSpec.PoolBuyIsolated | src/user/user_manager.rs:24-33 | each account's buys depend on that account and its own answers only |
| UserManagerSpec.PoolBuyKeepsConsistent | src/user/user_manager.rs:24-33 | buying keeps every account consistent |
| UserManagerSpec.PoolSellKeepsConsistent | src/user/user_manager.rs:34-42 | a sell round keeps every account consistent |
| UserManagerSpec.SettleKeepsConsistent | src/user/user_manager.rs:43-48 | the retry loop keeps every account consistent |
| UserManagerSpec.FinishedStaysFinished | src/user/user.rs:96-101 | a finished account is still finished after further sell passes |
| UserManagerSpec.EmptyPoolSettlesAtOnce | src/user/user_manager.rs:34-48 | with no users the first round answers true, so the loop ends right after the buys |
| UserManagerSpec.DeadPoolSettlesAtOnce | src/user/user_manager.rs:34-48 | a pool of dead users ends the loop at its first round |
| UserManagerSpec.CleanPassFinishesUser | src/user/user_manager.rs:34-42 | a round in which one user's pass meets no refused order finishes that user |
| UserManagers.UserManager.constructor | src/user/user_manager.rs:14-18 | the pool holds the loaded users in their order and is valid |
| UserManagers.UserManager.RefreshUsers | src/user/user_manager.rs:19-23 | the accounts become `PoolRefresh` of the old ones; the user list is unchanged |
| UserManagers.UserManager.RefreshOne | src/user/user_manager.rs:20-22 | one user is refreshed and every other user is unchanged |
| UserManagers.UserManager.BuyTokens | src/user/user_manager.rs:24-33 | the accounts become `PoolBuy` of the old ones; each user sends `BuyRequests` for the same symbol list; the user list is unchanged |
| UserManagers.UserManager.BuyOne | src/user/user_manager.rs:27-31 | one user buys and every other user is unchanged |
| UserManagers.UserManager.ResolvePlaceSellOrder | src/user/user_manager.rs:34-42 | every user runs its sell passes; the answer is true iff every user is finished afterwards |
| UserManagers.UserManager.SellOne | src/user/user_manager.rs:36-40 | one user runs its passes and reports whether it is finished; every other user is unchanged |
| UserManagers.UserManager.ExecuteArbitrage | src/user/user_manager.rs:43-48 | all buys happen first, then sell rounds run until one answers true; the result is `Settle` of the pool after the buys |
| ExchangeInfo.SigDigits | src/exchange/kucoin/exchange_info.rs:15-27 | the digit count is non-negative and, when a '.' is present, at most the length minus one |
| ExchangeInfo.NumSigDigits | src/exchange/kucoin/exchange_info.rs:15-27 | the loop returns the number of non-'.' characters after the first '.', and 0 without a '.' |
| ExchangeInfo.SigDigitsAppend | src/exchange/kucoin/exchange_info.rs:19-25 | appending '.' changes nothing; appending another character adds 1 after a '.' and keeps 0 before any |
| ExchangeInfo.SigDigitsExamples | src/exchange/kucoin/exchange_info.rs:15-27 | "0.0001" gives 4, "0.1" gives 1 and "1" gives 0 |
| ExchangeInfo.GetOneSymbolInfo | src/exchange/kucoin/exchange_info.rs:29-36 | always succeeds, with the digit counts of the base and the price increments |
| ExchangeInfo.BuildPrecisionMap | src/exchange/kucoin/exchange_info.rs:45-57 | the loop builds the fold of the listings, inserting in order; its skip branch is never taken |
| ExchangeInfo.PrecisionMap | src/exchange/kucoin/exchange_info.rs:45-57 | the table after inserting the listings in order; `PrecisionMapKeys` and `PrecisionMapLastWins` prove its keys and values |
| ExchangeInfo.PrecisionMapKeys | src/exchange/kucoin/exchange_info.rs:45-57 | the keys are exactly the listed symbols |
| ExchangeInfo.PrecisionMapLastWins | src/exchange/kucoin/exchange_info.rs:45-57 | a repeated symbol maps to the precisions of its last listing |
| TokenInfo.UpperChar | src/exchange/kucoin/token_info.rs:35 | a lower-case ASCII letter becomes its capital, and any other character is kept |
| TokenInfo.Upper | src/exchange/kucoin/token_info.rs:35 | upper-casing keeps the length, maps each character with `UpperChar`, and leaves no lower-case letter |
| TokenInfo.UpperIdempotent | src/exchange/kucoin/token_info.rs:29-31 | upper-casing twice equals upper-casing once |
| TokenInfo.PrepSymbolForKucoin | src/exchange/kucoin/token_info.rs:27-31 | the pair is the upper-cased name followed by "-BTC": length plus 4, no lower-case letter |
| TokenInfo.PrepOfUpper | src/exchange/kucoin/token_info.rs:29-31 | preparing an upper-cased name gives the same pair as preparing the name |
| TokenInfo.PrepSymbolSameIff | src/exchange/kucoin/token_info.rs:29-31 | two names give the same pair iff their upper cases are equal |
| TokenInfo.MakeTokenInfoVec | src/exchange/kucoin/token_info.rs:33-43 | one entry per name, in order: the upper-cased name, its pair (equal to the name plus "-BTC"), no lower-case letter, and no price |

## Left out

- The exchange adapter (src/exchange/kucoin/kucoin.rs) and its REST client are replaced by oracle answers. The only facts kept are the initial health, the alive flag, and the kind and side of returned orders.
- Floating point: balances, percentages, amounts and prices are `real`. The f64/f32 products, the f32 cast of the market quantity, and string parsing are not modelled.
- Users.User.LowerHealth: health and the amount are unbounded integers. The source's `i8` overflows (a panic in debug builds, wrap-around in release builds) once health would fall below -128; the model does not capture that.
- Orders.Order.LowerHealth: the order's `i8` health is an unbounded integer. The overflow of an order whose query fails more than 128 times is not modelled.
- Users.VisitOrders: the `i8` error counter is unbounded. With more than 127 refused orders in one pass the source's counter overflows; the model does not capture that.
- ExchangeInfo.NumSigDigits: the `i8` counter is unbounded. The overflow for increments with more than 127 digits after the point is not modelled.
- Users.User.constructor: the startup balance fetch and the settings are parameters. The panics when they fail (`expect`), the `dotenv` loading and the credentials are not modelled, nor is `load_users`.
- Users.User.Refresh: `refresh_exchange_connection`, which rebuilds the client and panics when that fails, is not modelled. Only the balance answer matters.
- UserManagers.UserManager.BuyTokens: `join_all` runs the users' buys concurrently. They touch disjoint users, so the model runs them one after the other; interleavings are not modelled.
- UserManagers.UserManager.ExecuteArbitrage: the source loops without bound. The model runs the finite list of rounds it is given and reports `finished == false` when they run out. The 50 ms sleep between rounds is left out.
- Printing of errors and messages is left out.
- TokenInfo.Upper: only ASCII letters are upper-cased. Unicode case mapping, which can change the length (for example 'ß' becomes "SS"), is not modelled.
- `SymbolInfo::load_price` and the rest of `get_exchange_info_kc` (the request and its error mapping) are network calls and are not part of this model.
- The HTTP server, the main task loop, the refresh timer, error formatting, credential loading and the clock are not part of this model.
