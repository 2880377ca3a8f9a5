/** Calendar dates as MySQL stores them in `docker_container.expiring_at`. */
module Calendar {

  datatype Date = Date(year: int, month: int, day: int)

  function DaysInMonth(year: int, month: int): int {
    if month == 2 then
      if year % 4 == 0 && (year % 100 != 0 || year % 400 == 0) then 29 else 28
    else if month in {4, 6, 9, 11} then 30
    else 31
  }

  /** The leap days of the Gregorian calendar up to and including a year. */
  ghost function LeapDays(year: nat): int {
    year / 4 - year / 100 + year / 400
  }

  lemma Steps(year: int, period: int)
    requires year > 0 && period > 0
    ensures year / period - (year - 1) / period == if year % period == 0 then 1 else 0
  {
    var q, r := year / period, year % period;
    assert year == q * period + r;
    if r == 0 {
      assert year - 1 == (q - 1) * period + (period - 1);
      QuotientIs(year - 1, q - 1, period - 1, period);
    } else {
      QuotientIs(year - 1, q, r - 1, period);
    }
  }

  lemma QuotientIs(n: int, q: int, r: int, period: int)
    requires n == q * period + r && 0 <= r < period
    ensures n / period == q
  {
    var d := n / period - q;
    assert d * period == r - n % period;
    assert 0 - period < d * period < period;
    assert d >= 1 ==> d * period >= period;
    assert d <= -1 ==> d * period <= 0 - period;
  }

  lemma February(year: nat)
    requires year > 0
    ensures DaysInMonth(year, 2) == 28 + LeapDays(year) - LeapDays(year - 1)
  {
    Steps(year, 4);
    Steps(year, 100);
    Steps(year, 400);
    if year % 100 == 0 {
      MultiplesOf(year, 100, 4);
    }
    if year % 400 == 0 {
      MultiplesOf(year, 400, 100);
    }
  }

  lemma MultiplesOf(n: int, a: int, b: int)
    requires a > 0 && b > 0 && a % b == 0 && n % a == 0
    ensures n % b == 0
  {
    var k := (n / a) * (a / b);
    assert n == (n / a) * a && a == (a / b) * b;
    assert n == k * b;
    QuotientIs(n, k, 0, b);
  }

  /** February takes up the leap days; the other months alternate between 31 and 30 days, July and August apart. */
  lemma MonthLengths(year: nat, month: int)
    requires year > 0 && 1 <= month <= 12
    ensures DaysInMonth(year, month)
         == if month == 2 then 28 + LeapDays(year) - LeapDays(year - 1)
            else if month <= 7 then 30 + month % 2 else 31 - month % 2
  {
    hide LeapDays;
    if month == 2 {
      February(year);
    }
  }

  predicate ValidDate(d: Date) {
    && 1 <= d.year <= 9999
    && 1 <= d.month <= 12
    && 1 <= d.day <= DaysInMonth(d.year, d.month)
  }

  /** A date a DATETIME column can hold. */
  type StoredDate = d: Date | ValidDate(d) witness Date(2000, 1, 1)

  /** `DATE(a) < DATE(b)`. */
  predicate Before(a: Date, b: Date) {
    || a.year < b.year
    || (a.year == b.year && a.month < b.month)
    || (a.year == b.year && a.month == b.month && a.day < b.day)
  }
}
