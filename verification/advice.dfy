/** The MaxDailyStockProfit constructor: checks that the series fits in the
    trading day, runs bestProfit over the whole series, and turns the buy and
    sell indices into clock times. Its catch-all exception handler becomes the
    Err side of a Result. */
module Advice {
  import opened TradingWindow
  import opened ProfitScan

  datatype Error =
    | TooLong(arrayLength: int, minutesOpen: int)  // the series has more prices than the exchange has minutes
    | IndexOutOfBounds(index: int)                 // bestProfit read a price the series does not have

  datatype Result<T> = Ok(value: T) | Err(error: Error)

  /** When to trade: "not applicable" on a day without profit, otherwise the
      buy and sell clock times with the prices paid and received. */
  datatype Timing =
    | NotApplicable
    | Trade(buyTime: Time, buyAmount: real, sellTime: Time, sellAmount: real)

  datatype Outcome = Outcome(profit: real, timing: Timing)

  /** Java's (int) cast of a double: truncation toward zero. Java also
      saturates values outside the int range and maps NaN to 0; neither case
      arises here, because the cast is applied only to array indices. */
  function JavaIntCast(x: real): (k: int)
    ensures x >= 0.0 ==> k as real <= x < k as real + 1.0
    ensures x < 0.0 ==> k as real - 1.0 < x <= k as real
  {
    if x >= 0.0 then x.Floor else -((-x).Floor)
  }

  /** The constructor MaxDailyStockProfit(prices, open, close) without its
      console output. */
  method Advise(prices: array<real>, open: Time, close: Time) returns (r: Result<Outcome>)
    requires open.Valid() && close.Valid()
    ensures r.Ok? <==> 2 <= prices.Length <= MinutesOpen(open, close)
    ensures prices.Length > MinutesOpen(open, close) ==>
              r == Err(TooLong(prices.Length, MinutesOpen(open, close)))
    ensures prices.Length <= MinutesOpen(open, close) && prices.Length < 2 ==>
              r == Err(IndexOutOfBounds(1))
    ensures r.Ok? ==>
              var rep := Scan(prices[..], prices.Length);
              r.value.profit == rep.profit && r.value.profit >= 0.0 &&
              (r.value.timing.NotApplicable? <==> rep.profit == 0.0) &&
              (r.value.timing.Trade? ==>
                 r.value.timing == Trade(PlusMinutes(open, rep.buyIndex), rep.buyValue,
                                         PlusMinutes(open, rep.sellIndex), rep.sellValue))
    ensures r.Ok? && r.value.timing.Trade? ==>
              var t := r.value.timing;
              var rep := Scan(prices[..], prices.Length);
              MinutesOpen(open, t.buyTime) == rep.buyIndex < MinutesOpen(open, close) &&
              MinutesOpen(open, t.sellTime) == rep.sellIndex < MinutesOpen(open, close) &&
              open.SecondOfDay() <= t.buyTime.SecondOfDay() <= t.sellTime.SecondOfDay() < close.SecondOfDay()
  {
    var arrayLength := prices.Length;
    var minutesOpen := MinutesOpen(open, close);
    if arrayLength > minutesOpen {
      return Err(TooLong(arrayLength, minutesOpen));
    }
    if arrayLength < 2 {
      // bestProfit reads prices[1] before anything else.
      return Err(IndexOutOfBounds(1));
    }

    var response := BestProfit(prices, arrayLength);
    var profit := response[4];
    if profit == 0.0 {
      r := Ok(Outcome(profit, NotApplicable));
    } else {
      var buyIndex := JavaIntCast(response[3]);
      var sellIndex := JavaIntCast(response[1]);
      var buyTime := PlusMinutes(open, buyIndex);
      var sellTime := PlusMinutes(open, sellIndex);
      r := Ok(Outcome(profit, Trade(buyTime, response[2], sellTime, response[0])));

      ghost var rep := Scan(prices[..], arrayLength);
      IndicesInRange(prices[..], arrayLength);
      OffsetInsideWindow(open, close, rep.buyIndex);
      OffsetInsideWindow(open, close, rep.sellIndex);
    }
  }
}
