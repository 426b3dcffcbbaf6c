/** First-of-month dates, the only `datetime` values the extractor builds:
    `datetime(y, m, 1)`, their ordering and their `strftime('%Y%m')` spelling. */
module Dates {
  import opened Wrappers
  import opened Text

  /** `datetime.MINYEAR` and `datetime.MAXYEAR`. */
  const MinYear := 1
  const MaxYear := 9999

  /** `datetime(year, month, 1)`. */
  datatype YearMonth = YearMonth(year: int, month: int)

  predicate IsValid(d: YearMonth) {
    MinYear <= d.year <= MaxYear && 1 <= d.month <= 12
  }

  /** The dates a `datetime` object can hold. */
  type Date = d: YearMonth | IsValid(d) witness YearMonth(1, 1)

  /** Why the `datetime` constructor raises `ValueError`; it checks the year
      before the month. */
  datatype DateError = YearOutOfRange | MonthOutOfRange

  /** `datetime(year, month, 1)`. */
  function MakeDate(year: int, month: int): (r: Result<YearMonth, DateError>)
    ensures r.Success? <==> IsValid(YearMonth(year, month))
    ensures r.Success? ==> r.value == YearMonth(year, month)
    ensures r == Failure(YearOutOfRange) <==> !(MinYear <= year <= MaxYear)
  {
    if !(MinYear <= year <= MaxYear) then Failure(YearOutOfRange)
    else if !(1 <= month <= 12) then Failure(MonthOutOfRange)
    else Success(YearMonth(year, month))
  }

  /** `a <= b` on two first-of-month datetimes: year first, then month. */
  predicate NotAfter(a: YearMonth, b: YearMonth) {
    a.year < b.year || (a.year == b.year && a.month <= b.month)
  }

  /** Months elapsed since month 1 of year 0: an independent measure of time. */
  function MonthOrdinal(d: YearMonth): int {
    12 * d.year + (d.month - 1)
  }

  /** Comparing first-of-month dates is comparing the months they fall in. */
  lemma NotAfterIsOrdinalOrder(a: YearMonth, b: YearMonth)
    requires 1 <= a.month <= 12 && 1 <= b.month <= 12
    ensures NotAfter(a, b) <==> MonthOrdinal(a) <= MonthOrdinal(b)
  {
  }

  /** `NotAfter` is a total order on valid dates. */
  lemma NotAfterTotalOrder(a: YearMonth, b: YearMonth, c: YearMonth)
    ensures NotAfter(a, a)
    ensures NotAfter(a, b) || NotAfter(b, a)
    ensures NotAfter(a, b) && NotAfter(b, a) ==> a == b
    ensures NotAfter(a, b) && NotAfter(b, c) ==> NotAfter(a, c)
  {
  }

  /** `d.strftime('%Y%m')`: the year in four digits, the month in two. */
  function FormatYearMonth(d: YearMonth): string
    requires IsValid(d)
  {
    [DigitChar(d.year / 10 / 10 / 10), DigitChar(d.year / 10 / 10 % 10), DigitChar(d.year / 10 % 10),
     DigitChar(d.year % 10), DigitChar(d.month / 10), DigitChar(d.month % 10)]
  }

  /** Reads six digits back as a year and a month. */
  function ParseYearMonth(s: string): Option<YearMonth> {
    if |s| == 6 && forall i | 0 <= i < 6 :: IsDigit(s[i]) then
      Some(YearMonth(
        1000 * DigitValue(s[0]) + 100 * DigitValue(s[1]) + 10 * DigitValue(s[2]) + DigitValue(s[3]),
        10 * DigitValue(s[4]) + DigitValue(s[5])))
    else None
  }

  /** The `%Y%m` spelling loses nothing: it reads back as the same date. */
  lemma FormatYearMonthRoundTrip(d: YearMonth)
    requires IsValid(d)
    ensures |FormatYearMonth(d)| == 6
    ensures ParseYearMonth(FormatYearMonth(d)) == Some(d)
  {
    var y := d.year;
    var q1, q2 := y / 10, y / 10 / 10;
    assert y == 10 * q1 + y % 10;
    assert q1 == 10 * q2 + q1 % 10;
    assert q2 == 10 * (q2 / 10) + q2 % 10;
    assert q2 / 10 < 10;
    assert d.month == 10 * (d.month / 10) + d.month % 10;
    var s := FormatYearMonth(d);
    assert DigitValue(s[0]) == q2 / 10 && DigitValue(s[1]) == q2 % 10;
    assert DigitValue(s[2]) == q1 % 10 && DigitValue(s[3]) == y % 10;
  }
}
