/**
 The countdown shown on the ring view: the time left until the wedding date,
 split into whole days, hours and minutes. Instants are integer milliseconds,
 as `Date.prototype.getTime` returns them.
 */
module Countdown {

  /**
   The conversion constants of `countdown`: a second is 1000 ms, a minute 60
   seconds, an hour 60 minutes, a day 24 hours.
   */
  const SecondMs: int := 1000
  const MinuteMs: int := 60000
  const HourMs: int := 3600000
  const DayMs: int := 86400000

  /** The constants are built up from each other as the code builds them. */
  lemma ConversionChain()
    ensures MinuteMs == SecondMs * 60 && HourMs == MinuteMs * 60 && DayMs == HourMs * 24
  {
  }

  /** The three numbers `calcDate` writes into the `.days`, `.hours` and `.minutes` elements. */
  datatype Remaining = Remaining(days: int, hours: int, minutes: int)

  /** The span of time a triple stands for, in milliseconds. */
  function Millis(r: Remaining): int
  {
    r.days * DayMs + r.hours * HourMs + r.minutes * MinuteMs
  }

  /** A triple in the range a clock face shows: hours below 24, minutes below 60. */
  predicate InRange(r: Remaining)
  {
    0 <= r.days && 0 <= r.hours < 24 && 0 <= r.minutes < 60
  }

  /**
   `Math.trunc(a / b)` for a positive divisor: the quotient rounded toward zero,
   so that on a negative dividend it differs from Dafny's Euclidean `/`.
   */
  function TruncDiv(a: int, b: int): (q: int)
    requires b > 0
    ensures 0 <= a ==> 0 <= q && q * b <= a < q * b + b
    ensures a < 0 ==> q <= 0 && q * b - b < a <= q * b
  {
    if a >= 0 then a / b else -((-a) / b)
  }

  /** JavaScript's `a % b` for a positive divisor: the remainder takes the sign of `a`. */
  function TruncRem(a: int, b: int): (r: int)
    requires b > 0
    ensures r == a - TruncDiv(a, b) * b
    ensures 0 <= a ==> 0 <= r < b
    ensures a < 0 ==> -b < r <= 0
  {
    if a >= 0 then a % b else -((-a) % b)
  }

  /**
   `calcDate(gap, dayC, hourC, minuteC, container)` without its three
   `innerText` writes: days, then hours of the day, then minutes of the hour.
   On a positive gap the triple is in range and is the gap rounded down to
   the minute.
   */
  function CalcDate(gap: int): (r: Remaining)
    ensures gap > 0 ==> InRange(r)
    ensures gap > 0 ==> Millis(r) <= gap < Millis(r) + MinuteMs
  {
    var days := TruncDiv(gap, DayMs);
    var hours := TruncDiv(TruncRem(gap, DayMs), HourMs);
    var minutes := TruncDiv(TruncRem(gap, HourMs), MinuteMs);
    if gap > 0 then SplitPositive(gap); Remaining(days, hours, minutes)
    else Remaining(days, hours, minutes)
  }

  /** On a positive gap the truncating operations are Euclidean ones, and the hour remainder nests in the day remainder. */
  lemma SplitPositive(gap: int)
    requires gap > 0
    ensures var r := Remaining(gap / DayMs, (gap % DayMs) / HourMs, (gap % HourMs) / MinuteMs);
      InRange(r) && Millis(r) <= gap < Millis(r) + MinuteMs
  {
    var d, rd := gap / DayMs, gap % DayMs;
    assert gap == d * DayMs + rd && 0 <= rd < DayMs;
    var h, rh := rd / HourMs, rd % HourMs;
    assert rd == h * HourMs + rh && 0 <= rh < HourMs && 0 <= h < 24;
    assert gap == (24 * d + h) * HourMs + rh;
    assert gap % HourMs == rh;
    var m := rh / MinuteMs;
    assert m * MinuteMs <= rh < m * MinuteMs + MinuteMs && 0 <= m < 60;
  }

  /**
   The bounds of `CalcDate` determine it: any in-range triple whose span is the
   gap rounded down to the minute is the one `calcDate` shows.
   */
  lemma CalcDateUnique(gap: int, r: Remaining)
    requires gap > 0
    requires InRange(r) && Millis(r) <= gap < Millis(r) + MinuteMs
    ensures r == CalcDate(gap)
  {
    var c := CalcDate(gap);
    Brackets(gap, r);
    Brackets(gap, c);
    assert r.days == c.days;
    assert r.hours == c.hours;
    assert r.minutes == c.minutes;
  }

  /** An in-range triple whose span is the gap rounded down to the minute brackets the gap field by field. */
  lemma Brackets(gap: int, r: Remaining)
    requires InRange(r) && Millis(r) <= gap < Millis(r) + MinuteMs
    ensures r.days * DayMs <= gap < r.days * DayMs + DayMs
    ensures r.hours * HourMs <= gap - r.days * DayMs < r.hours * HourMs + HourMs
    ensures r.minutes * MinuteMs <= gap - r.days * DayMs - r.hours * HourMs < r.minutes * MinuteMs + MinuteMs
  {
    assert r.minutes * MinuteMs + MinuteMs <= HourMs;
    assert r.hours * HourMs + HourMs <= DayMs;
  }

  /** Target 2022-07-16T00:00:00, now 2022-07-15T00:00:00: one whole day. */
  lemma OneDayLeft()
    ensures CalcDate(86400000) == Remaining(1, 0, 0)
  {
  }

  /** Target 2022-07-16T12:00:00, now 2022-07-16T10:30:00: an hour and a half. */
  lemma HourAndAHalfLeft()
    ensures CalcDate(5400000) == Remaining(0, 1, 30)
  {
  }
}
