/** The trading window: times of day, the number of whole minutes the
    exchange is open, and the clock time a given number of minutes after
    opening. The "HH:MM" strings of the original are taken as already parsed
    into Time values. */
module TradingWindow {

  /** A time of day, as a parsed "HH:MM" (or "HH:MM:SS") string gives it. */
  datatype Time = Time(hour: int, minute: int, second: int) {

    predicate Valid() {
      0 <= hour < 24 && 0 <= minute < 60 && 0 <= second < 60
    }

    /** Whole minutes elapsed since midnight. */
    function MinuteOfDay(): (m: nat)
      requires Valid()
      ensures m < 1440
    {
      hour * 60 + minute
    }

    /** Seconds elapsed since midnight. */
    function SecondOfDay(): (s: nat)
      requires Valid()
      ensures s < 86400
    {
      MinuteOfDay() * 60 + second
    }
  }

  /** The time lying md minutes and the given seconds after midnight. */
  function FromMinuteOfDay(md: int, second: int): (t: Time)
    requires 0 <= md < 1440 && 0 <= second < 60
    ensures t.Valid() && t.MinuteOfDay() == md && t.second == second
  {
    Time(md / 60, md % 60, second)
  }

  /** Two valid times agreeing on the minute of the day and on the second are
      the same time. */
  lemma MinuteOfDayInjective(a: Time, b: Time)
    requires a.Valid() && b.Valid()
    requires a.MinuteOfDay() == b.MinuteOfDay() && a.second == b.second
    ensures a == b
  {
    var md := a.MinuteOfDay();
    assert a.hour == md / 60 && b.hour == md / 60;
  }

  /** Integer division that truncates toward zero, as Java's long division does. */
  function TruncDiv(a: int, d: int): (q: int)
    requires d > 0
    ensures a >= 0 ==> 0 <= a - d * q < d
    ensures a < 0 ==> -d < a - d * q <= 0
  {
    if a >= 0 then a / d else -((-a) / d)
  }

  /** determineMinutesOpen: ChronoUnit.MINUTES.between(open, close), the whole
      minutes from open to close truncated toward zero. Nothing checks that
      close comes after open, so the result may be negative or zero. */
  function MinutesOpen(open: Time, close: Time): (m: int)
    requires open.Valid() && close.Valid()
    ensures -1440 < m < 1440
    ensures var d := close.SecondOfDay() - open.SecondOfDay();
            (d >= 0 ==> 0 <= d - 60 * m < 60) &&
            (d < 0 ==> -60 < d - 60 * m <= 0)
  {
    TruncDiv(close.SecondOfDay() - open.SecondOfDay(), 60)
  }

  /** On "HH:MM" inputs (equal seconds) the result is exactly close minus open
      counted in minutes. */
  lemma MinutesOpenExact(open: Time, close: Time)
    requires open.Valid() && close.Valid() && open.second == close.second
    ensures MinutesOpen(open, close) == close.MinuteOfDay() - open.MinuteOfDay()
  {
    var e := close.MinuteOfDay() - open.MinuteOfDay();
    assert close.SecondOfDay() - open.SecondOfDay() == 60 * e;
  }

  /** Swapping open and close negates the minute count: truncation toward zero
      is symmetric. */
  lemma MinutesOpenAntisymmetric(a: Time, b: Time)
    requires a.Valid() && b.Valid()
    ensures MinutesOpen(b, a) == -MinutesOpen(a, b)
  {
    var d := b.SecondOfDay() - a.SecondOfDay();
    var m, n := MinutesOpen(a, b), MinutesOpen(b, a);
    if d >= 0 {
      assert 0 <= d - 60 * m < 60;
      assert -60 < -d - 60 * n <= 0 || d == 0;
    } else {
      assert -60 < d - 60 * m <= 0;
      assert 0 <= -d - 60 * n < 60;
    }
  }

  /** LocalTime.plus(Duration.ofMinutes(k)): k minutes later, wrapping round
      midnight; the seconds are carried over. */
  function PlusMinutes(t: Time, k: int): (r: Time)
    requires t.Valid()
    ensures r.Valid() && r.second == t.second
    ensures r.MinuteOfDay() == (t.MinuteOfDay() + k) % 1440
  {
    FromMinuteOfDay((t.MinuteOfDay() + k) % 1440, t.second)
  }

  /** Adding the minutes the exchange is open to the opening time gives back
      the closing time, whenever both carry the same seconds. */
  lemma PlusMinutesOpenIsClose(open: Time, close: Time)
    requires open.Valid() && close.Valid() && open.second == close.second
    ensures PlusMinutes(open, MinutesOpen(open, close)) == close
  {
    MinutesOpenExact(open, close);
    var m := MinutesOpen(open, close);
    var md := close.MinuteOfDay();
    assert open.MinuteOfDay() + m == md;
    assert md % 1440 == md;
    var r := PlusMinutes(open, m);
    assert r.MinuteOfDay() == md;
    MinuteOfDayInjective(r, close);
  }

  /** Counting the minutes from t to k minutes after t gives back k, as long
      as the addition does not pass midnight. */
  lemma MinutesOpenOfPlusMinutes(t: Time, k: int)
    requires t.Valid() && 0 <= k && t.MinuteOfDay() + k < 1440
    ensures MinutesOpen(t, PlusMinutes(t, k)) == k
  {
    MinutesOpenExact(t, PlusMinutes(t, k));
  }

  /** An offset smaller than the minutes the exchange is open maps to a time
      inside the trading day, lying exactly that many minutes after opening. */
  lemma OffsetInsideWindow(open: Time, close: Time, k: int)
    requires open.Valid() && close.Valid()
    requires 0 <= k < MinutesOpen(open, close)
    ensures PlusMinutes(open, k).MinuteOfDay() == open.MinuteOfDay() + k
    ensures PlusMinutes(open, k).SecondOfDay() == open.SecondOfDay() + 60 * k
    ensures PlusMinutes(open, k).SecondOfDay() < close.SecondOfDay()
    ensures MinutesOpen(open, PlusMinutes(open, k)) == k
  {
    var d := close.SecondOfDay() - open.SecondOfDay();
    assert d >= 60 * (k + 1);
    assert open.MinuteOfDay() + k < close.MinuteOfDay();
    MinutesOpenOfPlusMinutes(open, k);
  }
}
