/** bestProfit: one pass for the sell point (the running maximum of
    prices[1..arrayLength)), a second pass for the buy point (the running
    minimum of the prices before the sell point), and the profit clamped at
    zero. The result is the five-slot array
    [sellValue, sellIndex, buyValue, buyIndex, profit]. */
module ProfitScan {

  /** The five slots of the result array, named. */
  datatype Report = Report(sellValue: real, sellIndex: nat, buyValue: real, buyIndex: nat, profit: real)

  /** The result array's layout: maximum price and its index, minimum price
      and its index, profit. */
  function Encode(r: Report): (slots: seq<real>)
    ensures |slots| == 5
    ensures slots[1].Floor == r.sellIndex && slots[3].Floor == r.buyIndex
    ensures slots[0] == r.sellValue && slots[2] == r.buyValue && slots[4] == r.profit
  {
    [r.sellValue, r.sellIndex as real, r.buyValue, r.buyIndex as real, r.profit]
  }

  // ---------------------------------------------------------------------
  // Reference definitions

  /** Largest price of a non-empty series. */
  function Max(s: seq<real>): (m: real)
    requires |s| > 0
    ensures exists j :: 0 <= j < |s| && s[j] == m
    ensures forall j :: 0 <= j < |s| ==> s[j] <= m
  {
    if |s| == 1 then s[0]
    else
      var m' := Max(s[..|s| - 1]);
      assert forall j :: 0 <= j < |s| - 1 ==> s[..|s| - 1][j] == s[j];
      if s[|s| - 1] > m' then s[|s| - 1] else m'
  }

  /** Smallest price of a non-empty series. */
  function Min(s: seq<real>): (m: real)
    requires |s| > 0
    ensures exists j :: 0 <= j < |s| && s[j] == m
    ensures forall j :: 0 <= j < |s| ==> m <= s[j]
  {
    if |s| == 1 then s[0]
    else
      var m' := Min(s[..|s| - 1]);
      assert forall j :: 0 <= j < |s| - 1 ==> s[..|s| - 1][j] == s[j];
      if s[|s| - 1] < m' then s[|s| - 1] else m'
  }

  /** Position of the first occurrence of x in s. */
  function FirstIndex(s: seq<real>, x: real): (k: nat)
    requires exists j :: 0 <= j < |s| && s[j] == x
    ensures k < |s| && s[k] == x
    ensures forall j :: 0 <= j < k ==> s[j] != x
  {
    if s[0] == x then 0
    else
      assert exists j :: 0 <= j < |s[1..]| && s[1..][j] == x by {
        var j :| 0 <= j < |s| && s[j] == x;
        assert s[1..][j - 1] == x;
      }
      1 + FirstIndex(s[1..], x)
  }

  /** The largest gain of any buy strictly before a sell, or zero: what a
      single buy-then-sell transaction can at best earn on s. */
  function OptimalProfit(s: seq<real>): (p: real)
    ensures p >= 0.0
    ensures forall i, j :: 0 <= i < j < |s| ==> s[j] - s[i] <= p
    ensures p == 0.0 || exists i, j :: 0 <= i < j < |s| && p == s[j] - s[i]
  {
    if |s| < 2 then 0.0
    else
      var init := s[..|s| - 1];
      var best := OptimalProfit(init);
      var low := Min(init);
      var p := if s[|s| - 1] - low > best then s[|s| - 1] - low else best;
      OptimalProfitStep(s, best, low, p);
      p
  }

  /** One step of OptimalProfit: the best gain on s is the best gain on all
      but its last price, or the last price minus the lowest one before it. */
  lemma OptimalProfitStep(s: seq<real>, best: real, low: real, p: real)
    requires |s| >= 2
    requires var init := s[..|s| - 1];
             best >= 0.0 &&
             (forall i, j :: 0 <= i < j < |init| ==> init[j] - init[i] <= best) &&
             (best == 0.0 || exists i, j :: 0 <= i < j < |init| && best == init[j] - init[i])
    requires var init := s[..|s| - 1];
             (exists j :: 0 <= j < |init| && init[j] == low) &&
             (forall j :: 0 <= j < |init| ==> low <= init[j])
    requires p == if s[|s| - 1] - low > best then s[|s| - 1] - low else best
    ensures p >= 0.0
    ensures forall i, j :: 0 <= i < j < |s| ==> s[j] - s[i] <= p
    ensures p == 0.0 || exists i, j :: 0 <= i < j < |s| && p == s[j] - s[i]
  {
    var init := s[..|s| - 1];
    var last := |s| - 1;
    assert forall j :: 0 <= j < |init| ==> init[j] == s[j];
    forall i, j | 0 <= i < j < |s| ensures s[j] - s[i] <= p {
      if j < last {
        assert init[j] - init[i] <= best;
      } else {
        assert low <= init[i];
      }
    }
    if p != 0.0 {
      if p == best {
        var i, j :| 0 <= i < j < |init| && best == init[j] - init[i];
        assert p == s[j] - s[i];
      } else {
        var i :| 0 <= i < |init| && init[i] == low;
        assert p == s[last] - s[i];
      }
    }
  }

  /** Any single buy-then-sell gain is a lower bound of OptimalProfit. */
  lemma GainAtMostOptimal(s: seq<real>, i: int, j: int)
    requires 0 <= i < j < |s|
    ensures s[j] - s[i] <= OptimalProfit(s)
  {
  }

  // ---------------------------------------------------------------------
  // What bestProfit computes

  /** End (exclusive) of the range the sell scan covers: indices
      1..arrayLength-1, and prices[1] alone when that range is empty. */
  function SellEnd(n: int): (e: nat)
    ensures e >= 2 && (n >= 2 ==> e == n)
  {
    if n < 2 then 2 else n
  }

  /** End (exclusive) of the range the buy scan covers: the indices before
      the sell index, and prices[0] alone when that range is empty. */
  function BuyEnd(sellIndex: nat): (e: nat)
    ensures e >= 1 && (sellIndex >= 1 ==> e == sellIndex)
  {
    if sellIndex < 1 then 1 else sellIndex
  }

  /** Where the sell scan ends: the maximum of prices[1..arrayLength)... */
  function SellValue(s: seq<real>, n: int): (v: real)
    requires |s| >= 2 && n <= |s|
  {
    Max(s[1..SellEnd(n)])
  }

  /** ...and its first position, but only when it strictly exceeds
      prices[1]; otherwise the index keeps its initial value 0. */
  function SellIndex(s: seq<real>, n: int): (k: nat)
    requires |s| >= 2 && n <= |s|
    ensures k < |s|
  {
    var v := SellValue(s, n);
    if v > s[1] then 1 + FirstIndex(s[1..SellEnd(n)], v) else 0
  }

  /** Where the buy scan ends: the minimum of the prices before the sell
      index... */
  function BuyValue(s: seq<real>, sellIndex: nat): (v: real)
    requires 1 <= |s| && sellIndex <= |s|
  {
    Min(s[..BuyEnd(sellIndex)])
  }

  /** ...and its first position. */
  function BuyIndex(s: seq<real>, sellIndex: nat): (k: nat)
    requires 1 <= |s| && sellIndex <= |s|
  {
    FirstIndex(s[..BuyEnd(sellIndex)], BuyValue(s, sellIndex))
  }

  /** The report bestProfit(prices, arrayLength) returns, by reference to the
      maximum, the minimum and their first positions, with the profit
      clamped at 0. */
  function Scan(s: seq<real>, n: int): (r: Report)
    requires |s| >= 2 && n <= |s|
  {
    var sellValue := SellValue(s, n);
    var sellIndex := SellIndex(s, n);
    var buyValue := BuyValue(s, sellIndex);
    var gain := sellValue - buyValue;
    Report(sellValue, sellIndex, buyValue, BuyIndex(s, sellIndex), if gain < 0.0 then 0.0 else gain)
  }

  /** (v, k) is where the sell scan over s[1..n) ends: v bounds every scanned
      price; k is 0 with v = s[1] when no price beats s[1], and otherwise the
      first position of v. */
  predicate IsSellPoint(s: seq<real>, n: int, v: real, k: nat)
    requires |s| >= 2 && n <= |s|
  {
    (forall j :: 1 <= j < n ==> s[j] <= v) &&
    (k == 0 ==> v == s[1]) &&
    (k != 0 ==> 2 <= k < n && s[k] == v && v > s[1] &&
                forall j :: 1 <= j < k ==> s[j] < v)
  }

  /** (v, k) is where the buy scan over s[0..end) ends: v is the least price
      there and k its first position. */
  predicate IsBuyPoint(s: seq<real>, end: nat, v: real, k: nat)
    requires end <= |s|
  {
    k < end && s[k] == v &&
    (forall j :: 0 <= j < end ==> v <= s[j]) &&
    (forall j :: 0 <= j < k ==> v < s[j])
  }

  lemma SellPointUnique(s: seq<real>, n: int, v1: real, k1: nat, v2: real, k2: nat)
    requires |s| >= 2 && n <= |s|
    requires IsSellPoint(s, n, v1, k1) && IsSellPoint(s, n, v2, k2)
    ensures v1 == v2 && k1 == k2
  {
    if n >= 2 {
      assert s[1] <= v1 && s[1] <= v2;
    }
  }

  lemma BuyPointUnique(s: seq<real>, end: nat, v1: real, k1: nat, v2: real, k2: nat)
    requires end <= |s|
    requires IsBuyPoint(s, end, v1, k1) && IsBuyPoint(s, end, v2, k2)
    ensures v1 == v2 && k1 == k2
  {
  }

  /** The sell value is the maximum of prices[1..arrayLength) (prices[1] when
      that range is empty); the sell index is 0 exactly when no later price
      strictly exceeds prices[1], and otherwise the first index holding the
      maximum. */
  lemma ScanSellPoint(s: seq<real>, n: int)
    requires |s| >= 2 && n <= |s|
    ensures IsSellPoint(s, n, Scan(s, n).sellValue, Scan(s, n).sellIndex)
    ensures Scan(s, n).sellIndex == 0 <==> forall j :: 1 <= j < n ==> s[j] <= s[1]
  {
    var t := s[1..SellEnd(n)];
    assert forall j :: 0 <= j < |t| ==> t[j] == s[j + 1];
    var v, k := SellValue(s, n), SellIndex(s, n);
    assert v == Max(t);
    if k != 0 {
      var f := FirstIndex(t, v);
      assert k == 1 + f && f != 0;
      forall j | 1 <= j < k ensures s[j] < v {
        assert t[j - 1] != v && t[j - 1] <= v;
      }
    }
    assert IsSellPoint(s, n, v, k);
  }

  /** The buy value is the minimum of the prices strictly before the sell
      index (prices[0] when the sell index is 0), and the buy index is the
      first index holding it. */
  lemma ScanBuyPoint(s: seq<real>, n: int)
    requires |s| >= 2 && n <= |s|
    ensures var r := Scan(s, n);
            BuyEnd(r.sellIndex) <= |s| &&
            IsBuyPoint(s, BuyEnd(r.sellIndex), r.buyValue, r.buyIndex)
  {
    ScanSellPoint(s, n);
    var k := SellIndex(s, n);
    var t := s[..BuyEnd(k)];
    assert forall j :: 0 <= j < |t| ==> t[j] == s[j];
    assert IsBuyPoint(s, BuyEnd(k), BuyValue(s, k), BuyIndex(s, k));
  }

  /** Any pair of scan end points is the one Scan describes. */
  lemma ScanFromScanPoints(s: seq<real>, n: int, sellValue: real, sellIndex: nat, buyValue: real, buyIndex: nat)
    requires |s| >= 2 && n <= |s|
    requires IsSellPoint(s, n, sellValue, sellIndex)
    requires BuyEnd(sellIndex) <= |s| && IsBuyPoint(s, BuyEnd(sellIndex), buyValue, buyIndex)
    ensures var gain := sellValue - buyValue;
            Scan(s, n) == Report(sellValue, sellIndex, buyValue, buyIndex, if gain < 0.0 then 0.0 else gain) &&
            Encode(Scan(s, n)) == [sellValue, sellIndex as real, buyValue, buyIndex as real,
                                   if gain < 0.0 then 0.0 else gain]
  {
    var r := Scan(s, n);
    ScanSellPoint(s, n);
    SellPointUnique(s, n, sellValue, sellIndex, r.sellValue, r.sellIndex);
    ScanBuyPoint(s, n);
    BuyPointUnique(s, BuyEnd(sellIndex), buyValue, buyIndex, r.buyValue, r.buyIndex);
  }

  // ---------------------------------------------------------------------
  // The methods

  /** The first pass of bestProfit: the running maximum of
      prices[1..arrayLength), starting from prices[1] at index 0 and moving
      only on a strictly larger price. */
  method SellScan(prices: array<real>, arrayLength: int) returns (maxValue: real, maxIndex: nat)
    requires prices.Length >= 2 && arrayLength <= prices.Length
    ensures IsSellPoint(prices[..], arrayLength, maxValue, maxIndex)
  {
    maxIndex := 0;
    maxValue := prices[1];
    var i := 1;
    while i < arrayLength
      invariant 1 <= i && (i <= arrayLength || i == 1)
      invariant forall j :: 1 <= j < i ==> prices[j] <= maxValue
      invariant maxIndex == 0 ==> maxValue == prices[1]
      invariant maxIndex != 0 ==> 2 <= maxIndex < i && prices[maxIndex] == maxValue && maxValue > prices[1]
      invariant forall j :: 1 <= j < maxIndex ==> prices[j] < maxValue
    {
      if prices[i] > maxValue {
        maxValue := prices[i];
        maxIndex := i;
      }
      i := i + 1;
    }
  }

  /** The second pass of bestProfit: the running minimum of the prices
      before the sell index, starting from prices[0] at index 0 and moving
      only on a strictly smaller price. */
  method BuyScan(prices: array<real>, maxIndex: nat) returns (minValue: real, minIndex: nat)
    requires 1 <= prices.Length && maxIndex <= prices.Length
    ensures IsBuyPoint(prices[..], BuyEnd(maxIndex), minValue, minIndex)
  {
    minIndex := 0;
    minValue := prices[0];
    var i := 1;
    while i < maxIndex
      invariant 1 <= i && (i <= maxIndex || i == 1)
      invariant minIndex < i && prices[minIndex] == minValue
      invariant forall j :: 0 <= j < i ==> minValue <= prices[j]
      invariant forall j :: 0 <= j < minIndex ==> minValue < prices[j]
    {
      if prices[i] < minValue {
        minValue := prices[i];
        minIndex := i;
      }
      i := i + 1;
    }
  }

  /** bestProfit: the two passes, the clamped profit and the five-slot
      result. The price array is only read. */
  method BestProfit(prices: array<real>, arrayLength: int) returns (response: array<real>)
    requires prices.Length >= 2 && arrayLength <= prices.Length
    ensures response.Length == 5
    ensures response[..] == Encode(Scan(prices[..], arrayLength))
  {
    var maxValue, maxIndex := SellScan(prices, arrayLength);
    var minValue, minIndex := BuyScan(prices, maxIndex);

    var profit := maxValue - minValue;
    if profit < 0.0 {
      profit := 0.0;
    }
    ghost var s := prices[..];
    ScanFromScanPoints(s, arrayLength, maxValue, maxIndex, minValue, minIndex);
    ghost var slots := Encode(Scan(s, arrayLength));

    response := new real[5];
    response[0] := maxValue;
    response[1] := maxIndex as real;
    response[2] := minValue;
    response[3] := minIndex as real;
    response[4] := profit;
    assert response[..] == slots;
    assert prices[..] == s;
  }

  /** bestProfitTest: the profit slot of bestProfit's result. */
  method BestProfitTest(prices: array<real>, arrayLength: int) returns (profit: real)
    requires prices.Length >= 2 && arrayLength <= prices.Length
    ensures profit >= 0.0
    ensures profit == Scan(prices[..], arrayLength).profit
  {
    var response := BestProfit(prices, arrayLength);
    profit := response[4];
  }

  // ---------------------------------------------------------------------
  // Properties of the result

  /** The profit is the sell value minus the buy value, or 0 when that
      difference is negative: never negative. */
  lemma ProfitIsClampedGain(s: seq<real>, n: int)
    requires |s| >= 2 && n <= |s|
    ensures var r := Scan(s, n);
            r.profit >= 0.0 && r.profit >= r.sellValue - r.buyValue &&
            (r.profit == 0.0 || r.profit == r.sellValue - r.buyValue)
  {
  }

  /** Both indices lie in [0, arrayLength) when arrayLength >= 2 and are 0
      otherwise; a non-zero sell index has the buy index strictly before it. */
  lemma IndicesInRange(s: seq<real>, n: int)
    requires |s| >= 2 && n <= |s|
    ensures var r := Scan(s, n);
            (n >= 2 ==> r.sellIndex < n && r.buyIndex < n) &&
            (n < 2 ==> r.sellIndex == 0 && r.buyIndex == 0) &&
            (r.sellIndex > 0 ==> r.buyIndex < r.sellIndex) &&
            (r.sellIndex == 0 ==> r.buyIndex == 0 && r.buyValue == s[0] && r.sellValue == s[1])
  {
    ScanSellPoint(s, n);
    ScanBuyPoint(s, n);
  }

  /** The reported profit is always what some buy strictly before a sell
      earns (clamped at 0): with sell index 0 that pair is minutes 0 and 1. */
  lemma ProfitIsAchievable(s: seq<real>, n: int)
    requires |s| >= 2 && 2 <= n <= |s|
    ensures exists i, j :: 0 <= i < j < n &&
              Scan(s, n).profit == (if s[j] - s[i] < 0.0 then 0.0 else s[j] - s[i])
  {
    var r := Scan(s, n);
    ScanSellPoint(s, n);
    ScanBuyPoint(s, n);
    if r.sellIndex == 0 {
      assert r.buyValue == s[0] && r.sellValue == s[1];
      assert 0 < 1 < n;
    } else {
      assert s[r.buyIndex] == r.buyValue && s[r.sellIndex] == r.sellValue;
      assert r.buyIndex < r.sellIndex < n;
    }
  }

  /** The two-pass scan never reports more than the best single transaction. */
  lemma ProfitAtMostOptimal(s: seq<real>, n: int)
    requires |s| >= 2 && 2 <= n <= |s|
    ensures Scan(s, n).profit <= OptimalProfit(s[..n])
  {
    ProfitIsAchievable(s, n);
    var i, j :| 0 <= i < j < n &&
      Scan(s, n).profit == (if s[j] - s[i] < 0.0 then 0.0 else s[j] - s[i]);
    assert s[..n][j] - s[..n][i] == s[j] - s[i];
  }

  /** Prices never rise from one minute to the next. */
  predicate NonIncreasing(s: seq<real>, n: int)
    requires n <= |s|
  {
    forall i :: 1 <= i < n ==> s[i] <= s[i - 1]
  }

  lemma {:induction false} NonIncreasingBounded(s: seq<real>, n: int, i: int, j: int)
    requires n <= |s| && NonIncreasing(s, n)
    requires 0 <= i <= j < n
    ensures s[j] <= s[i]
    decreases j - i
  {
    if i < j {
      NonIncreasingBounded(s, n, i, j - 1);
    }
  }

  /** A day on which the price never rises yields profit 0. */
  lemma NonIncreasingNoProfit(s: seq<real>, n: int)
    requires |s| >= 2 && 2 <= n <= |s|
    requires NonIncreasing(s, n)
    ensures Scan(s, n).profit == 0.0
  {
    forall j | 1 <= j < n ensures s[j] <= s[1] {
      NonIncreasingBounded(s, n, 1, j);
    }
    ScanSellPoint(s, n);
    IndicesInRange(s, n);
  }

  /** A day on which the price does not change yields profit 0. */
  lemma ConstantNoProfit(s: seq<real>, n: int)
    requires |s| >= 2 && 2 <= n <= |s|
    requires forall i :: 0 <= i < n ==> s[i] == s[0]
    ensures Scan(s, n).profit == 0.0
  {
    NonIncreasingNoProfit(s, n);
  }
}
