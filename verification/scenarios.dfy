/** The unit-test table of the original as lemmas over exact reals, each
    stating the whole five-slot report and not only the profit. */
module Scenarios {
  import opened TradingWindow
  import opened ProfitScan
  import Advice

  /** Price rises all day: sell at the last minute, buy at the first. */
  lemma StockPriceGoesUp()
    ensures Scan([400.001, 1500.002, 9200.00, 14000.0, 23000.003], 5)
            == Report(23000.003, 4, 400.001, 0, 22600.002)
  {
    ScanFromScanPoints([400.001, 1500.002, 9200.00, 14000.0, 23000.003], 5, 23000.003, 4, 400.001, 0);
  }

  /** Price falls all day: the difference is negative and clamped to 0. */
  lemma StockPriceGoesDown()
    ensures Scan([40000.001, 1500.002, 200.00, 14.0, 3.003], 5)
            == Report(1500.002, 0, 40000.001, 0, 0.0)
  {
    ScanFromScanPoints([40000.001, 1500.002, 200.00, 14.0, 3.003], 5, 1500.002, 0, 40000.001, 0);
  }

  lemma StockPriceHighInMiddle()
    ensures Scan([400.001, 1500.002, 119200.00, 14000.0, 23000.003], 5)
            == Report(119200.0, 2, 400.001, 0, 118799.999)
  {
    ScanFromScanPoints([400.001, 1500.002, 119200.00, 14000.0, 23000.003], 5, 119200.0, 2, 400.001, 0);
  }

  lemma StockPriceSameAllDay()
    ensures Scan([400.001, 400.001, 400.001, 400.001, 400.001], 5)
            == Report(400.001, 0, 400.001, 0, 0.0)
  {
    ScanFromScanPoints([400.001, 400.001, 400.001, 400.001, 400.001], 5, 400.001, 0, 400.001, 0);
  }

  /** Nothing beats prices[1], so the sell index stays 0 while the sell value
      is prices[1]; buy and sell are both reported at index 0, yet the profit
      is positive. */
  lemma OnlyThreePrices()
    ensures Scan([0.023, 1500.002, 0.023], 3) == Report(1500.002, 0, 0.023, 0, 1499.979)
  {
    ScanFromScanPoints([0.023, 1500.002, 0.023], 3, 1500.002, 0, 0.023, 0);
  }

  lemma MinimumSecondMaximumLast()
    ensures Scan([4400.001, 150.002, 9200.003, 4000.000, 23000.003], 5)
            == Report(23000.003, 4, 150.002, 1, 22850.001)
  {
    ScanFromScanPoints([4400.001, 150.002, 9200.003, 4000.000, 23000.003], 5, 23000.003, 4, 150.002, 1);
  }

  /** The lowest price comes last; the maximum is prices[1], so again the
      sell index is 0 and the buy is prices[0]. */
  lemma LowestPriceLast()
    ensures Scan([400.001, 1500.002, 1.500, 20.000, 1.003], 5)
            == Report(1500.002, 0, 400.001, 0, 1100.001)
  {
    ScanFromScanPoints([400.001, 1500.002, 1.500, 20.000, 1.003], 5, 1500.002, 0, 400.001, 0);
  }

  /** prices[0] is the highest price of the day; the scan for the maximum
      never looks at it. */
  lemma MaximumPriceFirst()
    ensures Scan([5.0, 2.0, 1.0, 4.000, 0.500], 5) == Report(4.0, 3, 1.0, 2, 3.0)
  {
    ScanFromScanPoints([5.0, 2.0, 1.0, 4.000, 0.500], 5, 4.0, 3, 1.0, 2);
  }

  /** Pairing only the maximum with the minimum before it can miss the best
      transaction: buying at 0.0 and selling at 9.0 earns 9, the scan
      reports 5. */
  lemma ScanMissesBetterPair()
    ensures Scan([5.0, 6.0, 10.0, 0.0, 9.0], 5).profit == 5.0
    ensures Scan([5.0, 6.0, 10.0, 0.0, 9.0], 5).profit < OptimalProfit([5.0, 6.0, 10.0, 0.0, 9.0])
  {
    var s := [5.0, 6.0, 10.0, 0.0, 9.0];
    ScanFromScanPoints(s, 5, 10.0, 2, 5.0, 0);
    GainAtMostOptimal(s, 3, 4);
  }

  /** bestProfit reads prices[1] whatever arrayLength says, so with
      arrayLength 1 it reports a gain no transaction inside the first minute
      can make. */
  lemma ShortLengthExceedsOptimal()
    ensures Scan([1.0, 2.0], 1).profit == 1.0
    ensures OptimalProfit([1.0, 2.0][..1]) == 0.0
  {
    ScanFromScanPoints([1.0, 2.0], 1, 2.0, 0, 1.0, 0);
    assert [1.0, 2.0][..1] == [1.0];
  }

  /** With closing time equal to opening time the window is 0 minutes: the
      empty series passes the length check and fails reading prices[1]. */
  method EmptySeriesZeroWindow() returns (r: Advice.Result<Advice.Outcome>)
    ensures r == Advice.Err(Advice.IndexOutOfBounds(1))
  {
    var prices := new real[0];
    var t := Time(10, 0, 0);
    r := Advice.Advise(prices, t, t);
  }

  lemma TwoMinutesOpen()
    ensures MinutesOpen(Time(10, 0, 0), Time(10, 2, 0)) == 2
  {
  }

  lemma SixHoursOpen()
    ensures MinutesOpen(Time(10, 0, 0), Time(16, 0, 0)) == 360
  {
  }
}
