# MaxDailyStockProfit in Dafny

This project models the MaxDailyStockProfit Java class. Given yesterday's
share prices, one per minute since the exchange opened, it reports the best
profit it finds for a single buy followed by a sell, and the clock times at
which to buy and sell.

It has three parts, each a Dafny module:

- **TradingWindow** (`trading_window.dfy`) is `determineMinutesOpen`: the
  whole minutes between the opening and closing times, truncated toward zero
  as `ChronoUnit.MINUTES.between` truncates. It also models
  `LocalTime.plus(Duration.ofMinutes(k))`, which wraps round midnight. Times
  are parsed `(hour, minute, second)` values.
- **ProfitScan** (`profit_scan.dfy`) is `bestProfit` and `bestProfitTest`.
  - `bestProfit` makes two passes over a `real` array and fills a five-slot
    result: `[maxValue, maxIndex, minValue, minIndex, profit]`.
  - Pass 1 (`SellScan`) keeps a running maximum over
    `prices[1..arrayLength)`. It starts from `prices[1]` with index 0 and moves
    only on a strictly larger price.
  - Pass 2 (`BuyScan`) keeps a running minimum over the prices before that
    index. It starts from `prices[0]` with index 0 and moves only on a
    strictly smaller price.
  - `BestProfit` runs both passes, clamps the profit at 0 and fills the
    array. It is proved equal to the specification function `Scan`.
  - `Scan` is defined from `Max`, `Min` and `FirstIndex` of the scanned
    ranges. The lemmas about `Scan` state what the algorithm promises.
- **Advice** (`advice.dfy`) is the constructor.
  - It rejects a series longer than the minutes the exchange is open.
  - It runs `bestProfit` on the whole series.
  - Profit 0 becomes "not applicable". Otherwise the buy and sell times are
    the opening time plus the buy and sell indices in minutes.
  - The Java code signals failure by throwing an exception that its
    catch-all handler logs. Here it is the `Err` side of a `Result`.

**Scenarios** (`scenarios.dfy`) restates the unit-test table as lemmas. Each
`bestProfitTest` scenario gives the whole five-slot report, not only the
profit. The two `determineMinutesOpen` scenarios give the minute count.
Three more members exhibit edge cases: a better pair the scan misses, a
short `arrayLength`, and an empty series with a zero window.

The model keeps the code's behaviour where it differs from what a reader
would expect:

- **Sell index stuck at 0.** The running maximum starts from the value of
  `prices[1]` but with index 0. If no later price is strictly higher, the
  reported sell index stays 0 while the sell value is `prices[1]`. The buy
  scan is then empty and the buy is `prices[0]` at index 0.
  - The profit can still be positive. `[0.023, 1500.002, 0.023]` reports buy
    and sell both at index 0, with profit 1499.979 (`OnlyThreePrices`).
  - So "the buy index precedes the sell index whenever the profit is
    positive" does not hold for this code. What holds is weaker: a non-zero
    sell index has the buy index strictly before it (`IndicesInRange`).
  - The profit is always the gain of some real buy-before-sell pair
    (`ProfitIsAchievable`). With sell index 0, that pair is minutes 0 and 1.
- **Can miss the best pair.** The scan pairs only the maximum with the
  minimum before it. For `arrayLength >= 2`, which is every length the
  constructor passes, it never reports more than the best single transaction
  (`ProfitAtMostOptimal`). It can report less (`ScanMissesBetterPair`). With
  `arrayLength` below 2 the bound fails, because `prices[1]` is read anyway
  (`ShortLengthExceedsOptimal`).
- **At least two prices needed.** `bestProfit` reads `prices[1]` and
  `prices[0]` unconditionally, so it requires at least two prices, whatever
  `arrayLength` says.
  - In the constructor, a series of fewer than two prices that passes the
    length check fails with an index error. It is modelled as
    `IndexOutOfBounds(1)`.
  - When the closing time is not after the opening time, the window is zero
    or negative and every non-empty series is rejected as too long. The empty
    series passes the length check when the window is exactly zero. It then
    fails with `IndexOutOfBounds(1)` (`EmptySeriesZeroWindow`).

## Model

All source paths are under `src/main/java/au/com/latitude/microservice/lambda/MaxDailyStockProfit/` or `src/test/java/au/com/latitude/microservice/lambda/MaxDailyStockProfit/`, written out in full below.

| member | source | states |
|---|---|---|
| `ProfitScan.BestProfit` | src/main/java/au/com/latitude/microservice/lambda/MaxDailyStockProfit/MaxDailyStockProfit.java:138-208 | Reads the price array only. Returns five slots: sell value, sell index, buy value, buy index, clamped profit. They equal the reference report `Scan` on the array's contents. |
| `ProfitScan.SellScan` | src/main/java/au/com/latitude/microservice/lambda/MaxDailyStockProfit/MaxDailyStockProfit.java:142-165 | Pass 1 ends at a sell point. The value bounds every price in `prices[1..arrayLength)`. The index is 0, with value `prices[1]`, when nothing beats `prices[1]`. Otherwise it is the first index in `[2, arrayLength)` holding the value. |
| `ProfitScan.BuyScan` | src/main/java/au/com/latitude/microservice/lambda/MaxDailyStockProfit/MaxDailyStockProfit.java:166-178 | Pass 2 ends at the least price before the sell index (`prices[0]` when that range is empty) and the first index holding it. |
| `ProfitScan.BestProfitTest` | src/main/java/au/com/latitude/microservice/lambda/MaxDailyStockProfit/MaxDailyStockProfit.java:131-136 | Returns the profit slot of `bestProfit`: non-negative and equal to the reference report's profit. |
| `ProfitScan.Encode` | src/main/java/au/com/latitude/microservice/lambda/MaxDailyStockProfit/MaxDailyStockProfit.java:190-195 | The result layout has five slots. The indices in slots 1 and 3 survive the `(int)` truncation the constructor applies. |
| `ProfitScan.ScanSellPoint` | src/main/java/au/com/latitude/microservice/lambda/MaxDailyStockProfit/MaxDailyStockProfit.java:143-165 | The sell value is the maximum of `prices[1..arrayLength)`. The sell index is 0 exactly when no price there strictly exceeds `prices[1]`. Otherwise it is the first index attaining the maximum, so ties keep the earliest. |
| `ProfitScan.ScanBuyPoint` | src/main/java/au/com/latitude/microservice/lambda/MaxDailyStockProfit/MaxDailyStockProfit.java:166-178 | The buy value is the minimum of the prices strictly before the sell index (`prices[0]` when the index is 0). The buy index is the first index attaining it. |
| `ProfitScan.ScanFromScanPoints` | src/main/java/au/com/latitude/microservice/lambda/MaxDailyStockProfit/MaxDailyStockProfit.java:141-195 | The sell and buy points are unique. Whatever satisfies their characterisation is the report `Scan` gives, with the profit clamped at 0. |
| `ProfitScan.ProfitIsClampedGain` | src/main/java/au/com/latitude/microservice/lambda/MaxDailyStockProfit/MaxDailyStockProfit.java:180-184 | The profit equals `max(0, sellValue - buyValue)` and is never negative. |
| `ProfitScan.IndicesInRange` | src/main/java/au/com/latitude/microservice/lambda/MaxDailyStockProfit/MaxDailyStockProfit.java:141-178 | For `arrayLength >= 2` both indices lie in `[0, arrayLength)`, and for smaller lengths both are 0. A non-zero sell index has the buy index strictly before it. With sell index 0 the buy is `prices[0]` at index 0 and the sell value is `prices[1]`. |
| `ProfitScan.ProfitIsAchievable` | src/main/java/au/com/latitude/microservice/lambda/MaxDailyStockProfit/MaxDailyStockProfit.java:17-19 | The reported profit is the clamped gain of some buy at index i and sell at index j, with `i < j < arrayLength`. |
| `ProfitScan.OptimalProfit` | src/main/java/au/com/latitude/microservice/lambda/MaxDailyStockProfit/MaxDailyStockProfit.java:17-19 | The best single buy-before-sell gain, clamped at 0. It bounds every pair's gain and is attained by a pair, or is 0. |
| `ProfitScan.ProfitAtMostOptimal` | src/main/java/au/com/latitude/microservice/lambda/MaxDailyStockProfit/MaxDailyStockProfit.java:17-19 | For `arrayLength >= 2`, the two-pass scan never reports more than the best single transaction. |
| `ProfitScan.NonIncreasingNoProfit` | src/main/java/au/com/latitude/microservice/lambda/MaxDailyStockProfit/MaxDailyStockProfit.java:180-184 | A day on which the price never rises from one minute to the next yields profit 0. |
| `ProfitScan.ConstantNoProfit` | src/test/java/au/com/latitude/microservice/lambda/MaxDailyStockProfit/MaxDailyStockProfitTest.java:52-56 | A day on which the price does not change yields profit 0. |
| `TradingWindow.TruncDiv` | src/main/java/au/com/latitude/microservice/lambda/MaxDailyStockProfit/MaxDailyStockProfit.java:125 | Division that truncates toward zero. The remainder has the sign of the dividend and is smaller than the divisor. |
| `TradingWindow.MinutesOpen` | src/main/java/au/com/latitude/microservice/lambda/MaxDailyStockProfit/MaxDailyStockProfit.java:119-129 | Whole minutes from open to close, truncated toward zero, within (-1440, 1440). Nothing requires close to be after open. |
| `TradingWindow.MinutesOpenExact` | src/main/java/au/com/latitude/microservice/lambda/MaxDailyStockProfit/MaxDailyStockProfit.java:123-125 | On "HH:MM" times, the result is exactly close minus open, counted in minutes. |
| `TradingWindow.MinutesOpenAntisymmetric` | src/main/java/au/com/latitude/microservice/lambda/MaxDailyStockProfit/MaxDailyStockProfit.java:125 | Swapping open and close negates the result. |
| `TradingWindow.PlusMinutes` | src/main/java/au/com/latitude/microservice/lambda/MaxDailyStockProfit/MaxDailyStockProfit.java:76-77 | Opening time plus k minutes: a valid time with the same seconds, whose minute of the day is `(open + k) mod 1440`. |
| `TradingWindow.PlusMinutesOpenIsClose` | src/main/java/au/com/latitude/microservice/lambda/MaxDailyStockProfit/MaxDailyStockProfit.java:55-57 | When both times have the same seconds (as "HH:MM" strings do), opening time plus the minutes open is the closing time. |
| `TradingWindow.MinutesOpenOfPlusMinutes` | src/main/java/au/com/latitude/microservice/lambda/MaxDailyStockProfit/MaxDailyStockProfit.java:76-77 | Counting the minutes from t to t plus k gives back k when the addition does not pass midnight. |
| `TradingWindow.OffsetInsideWindow` | src/main/java/au/com/latitude/microservice/lambda/MaxDailyStockProfit/MaxDailyStockProfit.java:60-77 | An index below the minutes open maps, without wrapping, to a time exactly that many minutes after opening and strictly before closing. |
| `Advice.JavaIntCast` | src/main/java/au/com/latitude/microservice/lambda/MaxDailyStockProfit/MaxDailyStockProfit.java:76-77 | Java's `(int)` cast of a double truncates toward zero. |
| `Advice.Advise` | src/main/java/au/com/latitude/microservice/lambda/MaxDailyStockProfit/MaxDailyStockProfit.java:42-90 | Succeeds exactly when `2 <= length <= minutesOpen`. A series longer than the window gives `TooLong(length, minutesOpen)`, and a shorter-than-two series gives `IndexOutOfBounds(1)`. Profit 0 is "not applicable". Otherwise buy and sell are the opening time plus their indices. Both times lie in the window, buy no later than sell. |
| `Scenarios.StockPriceGoesUp` | src/test/java/au/com/latitude/microservice/lambda/MaxDailyStockProfit/MaxDailyStockProfitTest.java:34-38 | Rising day: sell 23000.003 at index 4, buy 400.001 at index 0, profit 22600.002. |
| `Scenarios.StockPriceGoesDown` | src/test/java/au/com/latitude/microservice/lambda/MaxDailyStockProfit/MaxDailyStockProfitTest.java:40-44 | Falling day: profit 0. |
| `Scenarios.StockPriceHighInMiddle` | src/test/java/au/com/latitude/microservice/lambda/MaxDailyStockProfit/MaxDailyStockProfitTest.java:46-50 | Maximum in the middle: profit 118799.999. |
| `Scenarios.StockPriceSameAllDay` | src/test/java/au/com/latitude/microservice/lambda/MaxDailyStockProfit/MaxDailyStockProfitTest.java:52-56 | Flat day: profit 0, both indices 0. |
| `Scenarios.OnlyThreePrices` | src/test/java/au/com/latitude/microservice/lambda/MaxDailyStockProfit/MaxDailyStockProfitTest.java:58-62 | Sell index 0 with sell value `prices[1]`, buy at index 0, positive profit 1499.979. |
| `Scenarios.MinimumSecondMaximumLast` | src/test/java/au/com/latitude/microservice/lambda/MaxDailyStockProfit/MaxDailyStockProfitTest.java:64-68 | Buy at index 1, sell at index 4, profit 22850.001. |
| `Scenarios.LowestPriceLast` | src/test/java/au/com/latitude/microservice/lambda/MaxDailyStockProfit/MaxDailyStockProfitTest.java:70-74 | Sell index 0 with sell value `prices[1]`, profit 1100.001. |
| `Scenarios.MaximumPriceFirst` | src/test/java/au/com/latitude/microservice/lambda/MaxDailyStockProfit/MaxDailyStockProfitTest.java:86-90 | `prices[0]` is never a sell candidate: buy 1.0 at index 2, sell 4.0 at index 3, profit 3.0. |
| `Scenarios.ScanMissesBetterPair` | src/main/java/au/com/latitude/microservice/lambda/MaxDailyStockProfit/MaxDailyStockProfit.java:166-178 | On `[5, 6, 10, 0, 9]` the scan reports 5, which is strictly less than the best single transaction, 9. |
| `Scenarios.ShortLengthExceedsOptimal` | src/main/java/au/com/latitude/microservice/lambda/MaxDailyStockProfit/MaxDailyStockProfit.java:143-165 | `prices[1]` is read whatever `arrayLength` says. On `[1.0, 2.0]` with `arrayLength` 1 the scan reports profit 1.0, but the best transaction within the first minute is 0. |
| `Scenarios.EmptySeriesZeroWindow` | src/main/java/au/com/latitude/microservice/lambda/MaxDailyStockProfit/MaxDailyStockProfit.java:55-61 | With closing time equal to opening time, an empty series passes the length check and fails with `IndexOutOfBounds(1)`, not `TooLong`. |
| `Scenarios.TwoMinutesOpen` | src/test/java/au/com/latitude/microservice/lambda/MaxDailyStockProfit/MaxDailyStockProfitTest.java:76-79 | 10:00 to 10:02 is 2 minutes. |
| `Scenarios.SixHoursOpen` | src/test/java/au/com/latitude/microservice/lambda/MaxDailyStockProfit/MaxDailyStockProfitTest.java:81-84 | 10:00 to 16:00 is 360 minutes. |

## Left out

- String parsing (`LocalTime.parse`) is not modelled. Times are given as parsed `Time` values, so a malformed time string and its exception are not modelled. Nanoseconds are not represented.
- A null price array (a `NullPointerException` in the constructor) is not modelled, because Dafny arrays are never null.
- The constructor's console and log output is not modelled: profit formatted with `DecimalFormat("$#0.000")`, the "TIME TO BUY/SELL" lines, and the generic message of the catch-all handler. The result is returned as a value instead.
- `bestProfit`'s per-comparison tracing is not modelled, including the `(int)bestProfit == 0` branch, which only chooses a log message.
- `main`, with its hard-coded sample arrays, is not modelled; `getLogger` is not modelled either.
- Prices are exact `real`s, not IEEE-754 doubles. The test expectations (22600.002 and so on) hold exactly over reals. They are not bit-exact claims about double arithmetic.
- `bestProfit`'s two loops are written as the methods `SellScan` and `BuyScan`, called one after the other from `BestProfit`. The values computed are those of the single Java method. `prices[0]` is read after pass 1 rather than before it. That changes nothing, because the array is only read.
- `ProfitScan.BestProfit`, `ProfitScan.BestProfitTest`, `ProfitScan.SellScan`: require `2 <= prices.Length` and `arrayLength <= prices.Length`. In Java, a shorter array or a larger `arrayLength` throws `ArrayIndexOutOfBoundsException` at `prices[1]` or inside pass 1. The model does not represent that exception. `bestProfit` has two callers. The constructor (MaxDailyStockProfit.java:65) passes `prices.length`. `bestProfitTest` (MaxDailyStockProfit.java:134) passes on its own `arrayLength`, and its callers, the unit tests, pass each array's length. In the constructor, a series of fewer than two prices throws at MaxDailyStockProfit.java:144, and `Advise` models that as `IndexOutOfBounds(1)`.
- `ProfitScan.BestProfit`: does not state that the result array is freshly allocated. The array is new in the code and callers here only read it.
