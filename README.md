# fintual_stocks in Dafny

A model of a small stock-portfolio ledger. It has four entities:

- A **price history** maps date strings (`YYYY-MM-DD`) to exact decimal prices. It is read-only once built.
- A **transaction history** keeps a running total of signed share amounts. For each date, it also keeps the total reached by the last transaction recorded on that date.
- A **stock** pairs a ticker with a price history and a transaction history of its own.
- A **portfolio** is a dictionary from ticker to stock. It can value all its holdings at a date, compute the profit between two dates, and compute the inputs of an annualized return.

The same price history and transaction history appear twice in the repository, in `fintual_stocks.py` and in `models/price_history.py` / `models/transaction_history.py`. The copies are line for line the same. So one Dafny definition models both: `models/price_history.py:10-18` is `PriceHistories.PriceHistory`, and `models/transaction_history.py:12-27` is `TransactionHistories.TransactionHistory`.

Modelling choices:

- **Amounts and prices are `real`.** Python's `Decimal` is exact for the `+`, `-` and `*` the ledger uses.
- **Dates are strings.** They are ordered the way Python orders `str`: code point by code point, with a proper prefix first. `Lex.Below` is that order, and it is proved to be a strict total order.
- **Python dictionaries remember insertion order.** The ledger depends on that order in two places: `list(d.values())[-1]` and `next(iter(d.values()))`. So a dictionary is modelled as its keys in insertion order plus the key-to-value map (`Dicts.Dict`).
- **Python's built-ins are functions.** `sorted`, `max` and `bisect.bisect_right` are in module `Sorting`.
- **Exceptions become values.** Every `ValueError`, `IndexError`, `StopIteration` and `max()` of an empty sequence becomes an `Err` result or a `Fail` outcome, carrying a reason from `Outcomes.Error`.
- **Data and state take the source's own form:**
  - `PriceHistory` is a datatype, because the source never updates it.
  - `TransactionHistory` is a class. Its two fields are updated in place, and a ghost `log` of every transaction added so far pins the state down (`Valid`).
  - `Stock` is a class with constant fields.
  - `Portfolio` is a class whose `stocks` dictionary grows. Its ghost maps record which ticker owns which transaction history, and which transactions each ticker has recorded.

Module layout: `outcomes.dfy`, `lex.dfy`, `sorting.dfy`, `dicts.dfy`, `price_history.dfy`, `transaction_history.dfy`, `stock.dfy`, `portfolio.dfy`. `scenarios.dfy` replays the repository's unit-test scenarios on the model.

### Two behaviours of `effective_shares` worth knowing

One might expect `effective_shares()` without a date to return the running total. The code (`fintual_stocks.py:35-36`) returns the value at the last position of `daily_accumulated` instead. A Python dict keeps a key at the position of its first insertion. So when a later transaction reuses an earlier date, the last position belongs to another date, and the two answers differ.

- `EffectiveSharesLatest` states the last-position behaviour.
- `Scenarios.RewrittenDateScenario` shows the difference. After 10 on day 1, 5 on day 2 and −3 on day 1 again, the answer is 15 while the running total is 12.
- `ChronologicalLatest` proves that the two agree whenever transactions are added in date order.

A lookup at a date also depends on later transactions in one case: when the history is empty. An empty history answers zero for any date (`fintual_stocks.py:33-34`). Once a transaction on a later date is recorded, the same lookup precedes every recorded date and fails (`fintual_stocks.py:39-42`). `Scenarios.EmptyHistoryLookahead` shows this. For non-empty histories, `NoLookahead` proves that later transactions cannot change a lookup.

## Model

| member | source | states |
|---|---|---|
| PriceHistories.PriceHistory.GetPrice | fintual_stocks.py:12-17 | Given a date, the lookup succeeds exactly when that date is recorded, and then gives its price; otherwise it fails with that date. Without a date, it fails exactly when there are no prices; otherwise it gives the price of the latest recorded date. |
| PriceHistories.PriceHistory.AvailableDates | fintual_stocks.py:19-20 | The recorded dates in strictly ascending order: each one once, none added and none lost. |
| PriceHistories.AvailableDatesCanonical | fintual_stocks.py:19-20 | Two price histories with the same dates list them identically, whatever order the prices were inserted in. |
| PriceHistories.LastAvailableIsLatest | fintual_stocks.py:12-20 | The last available date is the `max` date that `get_price()` defaults to, so pricing without a date prices at that date. |
| Lex.Below | fintual_stocks.py:14 | Python's `<` on `str`, the order `max`, `sorted` and `bisect_right` use (lines 14, 20, 40). It has no contract; the four lemmas below prove it a strict total order. |
| Lex.BelowIrreflexive | fintual_stocks.py:14 | No string is below itself. |
| Lex.BelowAsymmetric | fintual_stocks.py:14 | If `a < b` then not `b < a`. |
| Lex.BelowTransitive | fintual_stocks.py:20 | `<` on strings is transitive. |
| Lex.BelowTotal | fintual_stocks.py:40 | Any two different strings are comparable. |
| Outcomes.Given | fintual_stocks.py:59 | Python's truthiness test in `date or default` (lines 59, 94-95, 105-106): a date is kept unless it is `None` or the empty string. It is a plain definition with no contract. |
| Dicts.Empty | fintual_stocks.py:71 | `{}` (lines 25 and 71) is a well-formed dictionary with no keys. |
| Sorting.Sorted | fintual_stocks.py:20 | `sorted` of distinct keys is strictly ascending and holds exactly the same strings. |
| Sorting.Max | fintual_stocks.py:14 | `max` of a non-empty sequence is one of its elements, and no element exceeds it. |
| Sorting.BisectRight | fintual_stocks.py:40 | `bisect_right` returns a position in range: every element before it is at most the date, and every element from it on is above the date. |
| Sorting.AscendingUnique | fintual_stocks.py:20 | Two strictly ascending sequences with the same elements are equal. |
| Dicts.Dict.Put | fintual_stocks.py:30 | Dictionary assignment: a new key goes last, and an existing key keeps its position. The key gets the new value, every other key keeps its value, and the dictionary stays well formed. |
| Dicts.Dict.Values | fintual_stocks.py:36 | `list(d.values())` lists the values in the insertion order of their keys. |
| Dicts.PutNewValues | fintual_stocks.py:76 | Storing under a new key appends its value to the end of `values()`. |
| TransactionHistories.TransactionHistory.constructor | fintual_stocks.py:23-26 | A new history has an empty dictionary, a running total of zero and no transactions. |
| TransactionHistories.TransactionHistory.AddTransaction | fintual_stocks.py:28-30 | The running total grows by the amount and becomes the value stored for the date. No other date changes. The log grows by exactly that transaction, and the state stays the replay of the log. |
| TransactionHistories.TransactionHistory.EffectiveShares | fintual_stocks.py:32-43 | An empty history holds zero shares. The only failure is a lookup of a given date, and it reports that date. `EffectiveSharesLatest` and `EffectiveSharesFloor` state the result in every other case. |
| TransactionHistories.EffectiveSharesLatest | fintual_stocks.py:35-36 | Without a date, a non-empty history answers with the value in the last dictionary position. |
| TransactionHistories.EffectiveSharesFloor | fintual_stocks.py:37-43 | Given a date, a non-empty history succeeds exactly when some recorded date is not after it. It then answers with the value of the greatest such date: an exact match, or the `bisect_right` floor. |
| TransactionHistories.BisectFloor | fintual_stocks.py:39-43 | The element just before the `bisect_right` position is the greatest recorded date not after the query. |
| TransactionHistories.FloorUnique | fintual_stocks.py:39-43 | The date a lookup resolves to is unique. |
| TransactionHistories.NoLookahead | fintual_stocks.py:37-43 | For two non-empty histories, a lookup of `d` depends only on the dates not after `d` and their values, not on anything recorded later. An empty history is the exception, shown by `Scenarios.EmptyHistoryLookahead`. |
| TransactionHistories.TotalAppend | fintual_stocks.py:29 | The running total after two runs of transactions is the sum of their totals. |
| TransactionHistories.ReplayDates | fintual_stocks.py:28-30 | The recorded dates are exactly the dates of the transactions added. |
| TransactionHistories.ReplayValue | fintual_stocks.py:28-30 | The value stored for a date is the running total right after the last transaction on that date. A repeated date overwrites. |
| TransactionHistories.ChronologicalSplit | fintual_stocks.py:39-43 | In a log whose dates never go backwards, the transactions dated on or before `d` form a prefix. |
| TransactionHistories.ChronologicalLastKey | fintual_stocks.py:36 | In such a log, the last dictionary key is the date of the last transaction. |
| TransactionHistories.ChronologicalLatest | fintual_stocks.py:35-36 | When transactions are added in date order, `effective_shares()` without a date is the running total. |
| TransactionHistories.ChronologicalSharesAsOf | fintual_stocks.py:32-43 | When transactions are added in date order, `effective_shares(d)` from the first transaction's date on is the sum of every amount dated on or before `d`. |
| TransactionHistories.ChronologicalTooEarly | fintual_stocks.py:41-42 | A lookup of a date before the first transaction fails with that date. |
| Stocks.Stock.constructor | fintual_stocks.py:47-50 | A new stock keeps its ticker and price history and gets a fresh, empty transaction history. |
| Stocks.Stock.Value | fintual_stocks.py:58-60 | Without a date, or with the empty string, a stock with no prices fails. Any failure is a missing price date, a share lookup failure or a missing price. `ValueAt` and `ValueDefaultDate` state the result itself. |
| Stocks.Stock.AddTransaction | fintual_stocks.py:65-66 | The transaction goes to the stock's own history, with the effect of `TransactionHistory.AddTransaction`. |
| Stocks.ValueAt | fintual_stocks.py:58-60 | At a given date, the value exists exactly when the share lookup succeeds and that exact date has a price, and it is shares times price. A failing share lookup is reported before a missing price. |
| Stocks.ValueDefaultDate | fintual_stocks.py:58-60 | Valued without a date, a stock is valued at the latest price date, the date `get_price()` defaults to. |
| Stocks.UntradedValue | fintual_stocks.py:58-60 | A stock without transactions is worth zero at every date it has a price for. At any other date it fails with that date. |
| Portfolios.Portfolio.constructor | fintual_stocks.py:70-71 | A new portfolio holds no stocks. |
| Portfolios.Portfolio.AddStock | fintual_stocks.py:73-76 | A known ticker is refused with that ticker and changes nothing. A new ticker is appended after every stock already held, with the given prices and a fresh, empty transaction history. The stock that was first stays first. |
| Portfolios.Portfolio.AddTransaction | fintual_stocks.py:78-81 | An unknown ticker is refused and changes nothing. Otherwise the transaction is appended to that ticker's history, and no other stock's history changes. |
| Portfolios.Portfolio.HoldingsReady | fintual_stocks.py:87 | Every stock held can be valued. |
| Portfolios.Portfolio.PortfolioValue | fintual_stocks.py:83-87 | A portfolio with no stocks is worth zero. Otherwise the body sums `Valuations(stocks.Values(), date)`, which `ValuationsAt` ties stock by stock to the stocks held. `PortfolioValueOk` and `PortfolioValueFirstError` state when that sum succeeds and which error it reports. |
| Portfolios.Portfolio.FirstStock | fintual_stocks.py:92 | `next(iter(stocks.values()))` is the first element of `list(stocks.values())`. `AddStock` keeps that element first, so it is the stock added first. |
| Portfolios.Portfolio.Window | fintual_stocks.py:92-95 | An empty portfolio has no window. Otherwise a window fails only for lack of price dates. `WindowDates` states which dates it picks. |
| Portfolios.Portfolio.Profit | fintual_stocks.py:89-98 | An empty portfolio has no profit (`next` on no stocks). `ProfitSteps` and `ProfitGiven` state the rest. |
| Portfolios.Portfolio.ReturnBase | fintual_stocks.py:103-110 | An empty portfolio has no return, and a successful result never has a zero start value. `ReturnBaseSteps` and `ZeroStartGuard` state the rest. |
| Portfolios.Valuations | fintual_stocks.py:87 | One valuation per stock held. |
| Portfolios.ValuationsAt | fintual_stocks.py:87 | The valuation in position `i` is that of stock `i`. |
| Portfolios.Sum | fintual_stocks.py:87 | `sum(..., Decimal("0"))` of no terms is zero. `SumSpec`, `SumConcat` and `SumPermutation` state the rest. |
| Portfolios.Defaults | fintual_stocks.py:94-95 | `start_date or all_dates[0]` and `end_date or all_dates[-1]` (also lines 105-106) succeed exactly when each missing date has a date list to default from; otherwise they fail as the empty-list index does. A given date is kept. `WindowDates` states which price date a default is. |
| Portfolios.SumSpec | fintual_stocks.py:87 | Summing the generator succeeds exactly when every valuation does. Otherwise it reports the first failure in order. |
| Portfolios.SumConcat | fintual_stocks.py:87 | The sum of two runs of valuations that both succeed is the sum of their sums. |
| Portfolios.SumPermutation | fintual_stocks.py:87 | When the sum succeeds, it does not depend on the order of the stocks. |
| Portfolios.PortfolioValueOk | fintual_stocks.py:83-87 | A portfolio can be valued at a date exactly when every stock it holds can. |
| Portfolios.PortfolioValueFirstError | fintual_stocks.py:83-87 | When a portfolio cannot be valued, the error is that of the first stock, in insertion order, that cannot be valued. |
| Portfolios.PortfolioValueErrors | fintual_stocks.py:83-87 | A portfolio fails to value only as a stock does: a missing price date, a share lookup failure or a missing price. |
| Portfolios.UntradedStockAddsNothing | fintual_stocks.py:87 | Adding an untraded stock leaves the sum unchanged at any date that stock has a price for. |
| Portfolios.HoldsPut | fintual_stocks.py:76 | Adding a new ticker with a fresh, empty history keeps the portfolio well formed. |
| Portfolios.WindowDates | fintual_stocks.py:92-95 | A date that is given is kept. A missing start is the earliest and a missing end the latest price date of the first stock added. The window fails only when such a default is needed and that stock has no prices. |
| Portfolios.ProfitSteps | fintual_stocks.py:89-98 | Profit is the end value minus the start value. A window failure comes first, then a failure at the end date, then one at the start date. |
| Portfolios.ProfitGiven | fintual_stocks.py:96-98 | With both dates given, profit is the end value minus the start value, and the end date's error is reported first. |
| Portfolios.ProfitSameDate | fintual_stocks.py:96-98 | Profit over a single date is zero whenever that date can be valued. |
| Portfolios.ProfitAntisymmetric | fintual_stocks.py:96-98 | Swapping the dates negates the profit. |
| Portfolios.ProfitChain | fintual_stocks.py:96-98 | Profits over consecutive periods add up to the profit over the whole period. |
| Portfolios.ReturnBaseSteps | fintual_stocks.py:103-110 | The steps of `annualized_return`, in order: the window, the start value, the end value, and the refusal of a zero start value. |
| Portfolios.ReturnBaseGiven | fintual_stocks.py:107-110 | With both dates given, the return's inputs are the two values, checked start first, and a zero start value is refused. |
| Portfolios.ZeroStartGuard | fintual_stocks.py:109-110 | The return is refused for a zero start exactly when the window exists, the start value is zero and the end value exists. |
| Portfolios.ValuationOrder | fintual_stocks.py:96-108 | When neither date can be valued, `profit` reports the end date's error and `annualized_return` the start date's. |
| Portfolios.ReturnBaseProfit | fintual_stocks.py:89-110 | The return grows between the same two values whose difference is the profit. |
| Portfolios.ProfitReturnBase | fintual_stocks.py:89-110 | Conversely, when the profit exists and the start value is not zero, the return's inputs exist. |
| Portfolios.GrowthDifference | fintual_stocks.py:96-110 | The last steps of `profit` and `annualized_return` agree on the same two values. |
| Scenarios.TransactionHistoryScenario | tests/test_transaction_history.py:9-20 | After buying 10, buying 5 and selling 3 on three consecutive days, the holding is 15 on the second day and 12 without a date. |
| Scenarios.RecordThree | fintual_stocks.py:28-30 | Three `add_transaction` calls on three different dates leave one key per date, in call order. Each key holds the running total reached on it. |
| Scenarios.RewrittenDateScenario | fintual_stocks.py:28-36 | After 10 on day 1, 5 on day 2 and −3 on day 1 again, `effective_shares()` answers 15 while the running total is 12. |
| Scenarios.EmptyHistoryLookahead | fintual_stocks.py:33-42 | An empty history answers 0 for 2024-01-01. After a transaction on 2024-01-02, the same lookup fails with that date. |
| Scenarios.PriceLookupScenario | tests/test_price_history.py:17-21 | The first and fourth days are priced 150 and 157, and a fifth day has no price. |
| Scenarios.AvailableDatesScenario | tests/test_price_history.py:23-27 | The available dates are the four days, in ascending order. |
| Scenarios.StockScenario | tests/test_stock.py:21-29 | The stock is priced 100 and 110 on the first and third days. It holds 22 shares on the third day, worth 2420. |
| Scenarios.TradedPortfolioScenario | tests/test_portfolio.py:8-44 | After the setup's stocks and trades, the portfolio holds AAPL then NVDA, each with its prices and its three transactions. |
| Scenarios.PortfolioFigures | tests/test_portfolio.py:46-64 | The portfolio is worth 3500 on 2019-01-01 and 5970 on 2023-01-01, and the profit between them is 2470. The return grows from 3500 to 5970. |
| Scenarios.AppleShares | tests/test_portfolio.py:52-53 | AAPL holds 10 shares on the first day and 13 on the last. |
| Scenarios.NvidiaShares | tests/test_portfolio.py:54 | NVDA holds 20 shares on the first day and 25 on the last. |
| Scenarios.AppleValues | tests/test_portfolio.py:47-53 | AAPL is worth 1500 on the first day and 2470 on the last. |
| Scenarios.NvidiaValues | tests/test_portfolio.py:47-54 | NVDA is worth 2000 on the first day and 3500 on the last. |
| Scenarios.NewStockScenario | tests/test_stock.py:9-19 | Three transactions on three new dates leave 22 shares recorded on the third day. |

## Left out

- Calendar arithmetic in `annualized_return` (`fintual_stocks.py:111-117`): parsing dates with `time.strptime`, `time.mktime`, the `days <= 0` refusal and the floating-point power are not modelled. `Portfolio.ReturnBase` stops at the guard and returns the dates and the two values the formula takes. Floating point and the local-time clock fall outside an exact model.
- Decimal context: `Decimal` arithmetic is exact up to the context precision (28 digits by default). The model uses unbounded `real`, so it does not capture rounding beyond that precision.
- `Stock.price`, `Stock.effective_shares` and `Stock.available_dates` (`fintual_stocks.py:52-56`, `62-63`) are one-line delegations. `Stocks.Stock.Value` calls the price history and transaction history directly. `available_dates` sorts an already sorted list, so it is `AvailableDates` again.
- TransactionHistories.TransactionHistory.constructor takes no argument. The dataclass also accepts an initial `daily_accumulated` mapping (`fintual_stocks.py:25`), in which case `_last_total` still starts at zero and the state is not the replay of any transaction log. The ledger itself only ever calls `TransactionHistory()` (`fintual_stocks.py:50`), so that form is not modelled.
- Exceptions: each error is an `Err`/`Fail` value. The message text is not modelled, only the reason and the date or ticker it names.
- `PriceHistory` being a dataclass whose `prices` a caller could still mutate: the model treats the price history as an immutable value.
- No I/O: the library reads no files and no network, and the model has none.
- The generator in `portfolio_value` (`fintual_stocks.py:87`) is modelled as the list of all valuations. Python stops valuing at the first stock that raises. The model values every stock, but `Sum` still reports the first failure. Valuation has no side effects, so the results agree.
