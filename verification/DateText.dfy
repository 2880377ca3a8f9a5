/** Date texts: what `validate_date` accepts, what DATE_FORMAT prints, and how they compare as strings. */
module DateText {
  import opened Wrappers
  import opened Text
  import opened Calendar

  // ---------- Comparing texts ----------

  /** The first index at which two texts differ or one of them ends. */
  function FirstDifference(a: string, b: string): (k: nat)
    ensures k <= |a| && k <= |b| && a[..k] == b[..k]
    ensures k < |a| && k < |b| ==> a[k] != b[k]
  {
    if a != [] && b != [] && a[0] == b[0] then
      var k := FirstDifference(a[1..], b[1..]);
      assert a[..k + 1] == [a[0]] + a[1..][..k] && b[..k + 1] == [b[0]] + b[1..][..k];
      k + 1
    else 0
  }

  /** Python's `a < b` on strings. */
  predicate TextLess(a: string, b: string) {
    var k := FirstDifference(a, b);
    k < |b| && (k == |a| || a[k] < b[k])
  }

  lemma FirstDifferenceIs(a: string, b: string, k: nat)
    requires k < |a| && k < |b| && a[..k] == b[..k] && a[k] != b[k]
    ensures FirstDifference(a, b) == k
  {
    if k > 0 {
      assert a[..k][0] == a[0] && b[..k][0] == b[0];
      assert a[1..][..k - 1] == a[..k][1..] && b[1..][..k - 1] == b[..k][1..];
      FirstDifferenceIs(a[1..], b[1..], k - 1);
    }
  }

  // ---------- DATE_FORMAT ----------

  function Two(n: int): string
    requires 0 <= n < 100
  {
    [DigitOf(n / 10), DigitOf(n % 10)]
  }

  /** `DATE_FORMAT(d, '%Y-%m-%d')`. */
  function FormatDate(d: Date): (s: string)
    requires ValidDate(d)
    ensures |s| == 10
  {
    Two(d.year / 100) + Two(d.year % 100) + "-" + Two(d.month) + "-" + Two(d.day)
  }

  // ---------- strptime ----------

  predicate Digits(s: string) {
    forall i :: 0 <= i < |s| ==> IsDigit(s[i])
  }

  /** `%m`: 01 to 12, or a single digit. */
  function MonthNumber(t: string): Option<int> {
    if |t| == 1 && '1' <= t[0] <= '9' then Some(DigitValue(t[0]))
    else if |t| == 2 && t[0] == '0' && '1' <= t[1] <= '9' then Some(DigitValue(t[1]))
    else if |t| == 2 && t[0] == '1' && '0' <= t[1] <= '2' then Some(10 + DigitValue(t[1]))
    else None
  }

  /** `%d`: 01 to 31, a single digit, or a space and a digit. */
  function DayNumber(t: string): Option<int> {
    if |t| == 1 && '1' <= t[0] <= '9' then Some(DigitValue(t[0]))
    else if |t| == 2 && t[0] in {'0', ' '} && '1' <= t[1] <= '9' then Some(DigitValue(t[1]))
    else if |t| == 2 && t[0] in {'1', '2'} && IsDigit(t[1]) then Some(10 * DigitValue(t[0]) + DigitValue(t[1]))
    else if |t| == 2 && t[0] == '3' && '0' <= t[1] <= '1' then Some(30 + DigitValue(t[1]))
    else None
  }

  function YearNumber(t: string): int
    requires |t| == 4 && Digits(t)
  {
    1000 * DigitValue(t[0]) + 100 * DigitValue(t[1]) + 10 * DigitValue(t[2]) + DigitValue(t[3])
  }

  /** `datetime.strptime(s, "%Y-%m-%d")`; None stands for ValueError. */
  function ParseDate(s: string): Option<Date> {
    if |s| < 8 || !Digits(s[..4]) || s[4] != '-' || (s[6] != '-' && s[7] != '-') then None
    else
      var cut := if s[6] == '-' then 6 else 7;
      var month := MonthNumber(s[5..cut]);
      var day := DayNumber(s[cut + 1..]);
      if month.None? || day.None? then None
      else
        var d := Date(YearNumber(s[..4]), month.value, day.value);
        if ValidDate(d) then Some(d) else None
  }

  ghost predicate SpelledMonth(t: string, n: int)
    requires 0 <= n < 100
  {
    t == Two(n) || (n < 10 && t == [DigitOf(n)])
  }

  ghost predicate SpelledDay(t: string, n: int)
    requires 0 <= n < 100
  {
    t == Two(n) || (n < 10 && t in {[DigitOf(n)], [' ', DigitOf(n)]})
  }

  /** Four digits of the year, then month and day with or without padding. */
  ghost predicate SpellsDate(s: string, d: Date)
    requires ValidDate(d)
  {
    exists m, t :: SpelledMonth(m, d.month) && SpelledDay(t, d.day)
                   && s == Two(d.year / 100) + Two(d.year % 100) + "-" + m + "-" + t
  }

  lemma MonthExactly(t: string, n: int)
    requires 1 <= n <= 12
    ensures MonthNumber(t) == Some(n) <==> SpelledMonth(t, n)
  {
    if |t| == 1 {
      assert t == [t[0]];
    } else if |t| == 2 {
      assert t == [t[0], t[1]];
    }
  }

  lemma DayExactly(t: string, n: int)
    requires 1 <= n <= 31
    ensures DayNumber(t) == Some(n) <==> SpelledDay(t, n)
  {
    if |t| == 1 {
      assert t == [t[0]];
    } else if |t| == 2 {
      assert t == [t[0], t[1]];
    }
  }

  lemma YearDigits(s: string, year: int)
    requires |s| == 4 && Digits(s) && year == YearNumber(s)
    ensures 0 <= year / 100 < 100 && Two(year / 100) + Two(year % 100) == s
  {
    var hi, lo := 10 * DigitValue(s[0]) + DigitValue(s[1]), 10 * DigitValue(s[2]) + DigitValue(s[3]);
    assert year == 100 * hi + lo;
    TwoDigits(s[..2], hi);
    TwoDigits(s[2..], lo);
    assert s == s[..2] + s[2..];
  }

  lemma TwoDigits(s: string, n: int)
    requires |s| == 2 && Digits(s) && n == 10 * DigitValue(s[0]) + DigitValue(s[1])
    ensures 0 <= n < 100 && Two(n) == s
  {
    assert n / 10 == DigitValue(s[0]) && n % 10 == DigitValue(s[1]);
  }

  lemma TwoValue(n: int)
    requires 0 <= n < 100
    ensures 10 * DigitValue(Two(n)[0]) + DigitValue(Two(n)[1]) == n && Digits(Two(n))
  {
  }

  lemma YearExactly(t: string, year: int)
    requires |t| == 4 && Digits(t) && 0 <= year <= 9999
    ensures YearNumber(t) == year <==> t == Two(year / 100) + Two(year % 100)
  {
    hide DigitOf;
    if YearNumber(t) == year {
      YearDigits(t, year);
    }
    if t == Two(year / 100) + Two(year % 100) {
      TwoValue(year / 100);
      TwoValue(year % 100);
      assert t[0] == Two(year / 100)[0] && t[1] == Two(year / 100)[1];
      assert t[2] == Two(year % 100)[0] && t[3] == Two(year % 100)[1];
    }
  }

  lemma ParsedIsSpelled(s: string, d: Date)
    requires ValidDate(d) && ParseDate(s) == Some(d)
    ensures SpellsDate(s, d)
  {
    hide MonthNumber, DayNumber, YearNumber, SpelledMonth, SpelledDay, Two;
    var cut := if s[6] == '-' then 6 else 7;
    var m, t := s[5..cut], s[cut + 1..];
    MonthExactly(m, d.month);
    DayExactly(t, d.day);
    YearExactly(s[..4], d.year);
    assert s == s[..4] + "-" + m + "-" + t;
    assert SpelledMonth(m, d.month) && SpelledDay(t, d.day);
  }

  lemma SpelledParses(s: string, d: Date, m: string, t: string)
    requires ValidDate(d) && SpelledMonth(m, d.month) && SpelledDay(t, d.day)
    requires s == Two(d.year / 100) + Two(d.year % 100) + "-" + m + "-" + t
    ensures ParseDate(s) == Some(d)
  {
    hide MonthNumber, DayNumber, YearNumber;
    var year := Two(d.year / 100) + Two(d.year % 100);
    var cut := 5 + |m|;
    assert s[..4] == year && s[4] == '-' && s[5..cut] == m && s[cut] == '-' && s[cut + 1..] == t;
    MonthExactly(m, d.month);
    DayExactly(t, d.day);
    YearExactly(year, d.year);
    assert |m| == 2 ==> s[6] == m[1];
  }

  /** `validate_date` accepts exactly the spellings of the dates there are. */
  lemma ParsesExactly(s: string, d: Date)
    requires ValidDate(d)
    ensures ParseDate(s) == Some(d) <==> SpellsDate(s, d)
  {
    hide ParseDate, SpelledMonth, SpelledDay, Two;
    if ParseDate(s) == Some(d) {
      ParsedIsSpelled(s, d);
    }
    if m, t :| SpelledMonth(m, d.month) && SpelledDay(t, d.day)
               && s == Two(d.year / 100) + Two(d.year % 100) + "-" + m + "-" + t {
      SpelledParses(s, d, m, t);
    }
  }

  /** Every stored date prints as a text that parses back to it. */
  lemma FormatParses(d: Date)
    requires ValidDate(d)
    ensures ParseDate(FormatDate(d)) == Some(d)
  {
    hide ParseDate;
    assert SpelledMonth(Two(d.month), d.month) && SpelledDay(Two(d.day), d.day);
    assert FormatDate(d) == Two(d.year / 100) + Two(d.year % 100) + "-" + Two(d.month) + "-" + Two(d.day);
    ParsesExactly(FormatDate(d), d);
  }

  // ---------- String order against calendar order ----------

  ghost predicate Later(s: string, d: Date)
    requires ValidDate(d)
  {
    TextLess(FormatDate(d), s)
  }

  /** A ten-character text read digit by digit. */
  ghost predicate Spells(s: string, d: Date) {
    && |s| == 10 && s[4] == '-' && s[7] == '-'
    && (forall i :: i in {0, 1, 2, 3, 5, 6, 9} ==> IsDigit(s[i]))
    && d.year == 1000 * DigitValue(s[0]) + 100 * DigitValue(s[1]) + 10 * DigitValue(s[2]) + DigitValue(s[3])
    && d.month == 10 * DigitValue(s[5]) + DigitValue(s[6])
    && (s[8] == ' ' || IsDigit(s[8]))
    && d.day == (if s[8] == ' ' then 0 else 10 * DigitValue(s[8])) + DigitValue(s[9])
  }

  lemma FormatSpells(d: Date)
    requires ValidDate(d)
    ensures Spells(FormatDate(d), d) && FormatDate(d)[8] != ' '
  {
  }

  lemma ParseSpells(s: string)
    requires ParseDate(s).Some? && |s| == 10
    ensures Spells(s, ParseDate(s).value)
  {
    assert |s[7..]| == 3;
    assert s[..4] == [s[0], s[1], s[2], s[3]] && s[5..7] == [s[5], s[6]] && s[8..] == [s[8], s[9]];
  }

  /** Where two spelled dates first differ decides both their text order and their calendar order. */
  lemma SpelledOrder(f: string, d: Date, s: string, e: Date)
    requires Spells(f, d) && Spells(s, e) && f[8] != ' '
    ensures TextLess(f, s) ==> Before(d, e)
    ensures s[8] != ' ' ==> (TextLess(f, s) <==> Before(d, e))
  {
    var k := FirstDifference(f, s);
    forall i | 0 <= i < k ensures f[i] == s[i] {
      assert f[..k][i] == s[..k][i];
    }
    if k < 4 {
      assert d.year < e.year <==> f[k] < s[k];
      assert d.year != e.year;
    } else if k < 7 {
      assert d.year == e.year && (d.month < e.month <==> f[k] < s[k]) && d.month != e.month;
    } else {
      assert d.year == e.year && d.month == e.month;
    }
  }

  /** Two ten-character texts compare like the dates they denote (a space-padded day only errs downwards). */
  lemma TenCharactersCompare(s: string, d: Date)
    requires ParseDate(s).Some? && |s| == 10 && ValidDate(d)
    ensures Later(s, d) ==> Before(d, ParseDate(s).value)
    ensures s[8] != ' ' ==> (Later(s, d) <==> Before(d, ParseDate(s).value))
  {
    FormatSpells(d);
    ParseSpells(s);
    SpelledOrder(FormatDate(d), d, s, ParseDate(s).value);
  }

  /** An unpadded month or day makes some earlier (or equal) stored date look earlier than the text. */
  lemma ShortTextMisleads(s: string) returns (d: Date)
    requires ParseDate(s).Some? && |s| != 10
    ensures ValidDate(d) && Later(s, d) && !Before(d, ParseDate(s).value)
  {
    if s[6] == '-' {
      d := ShortMonthMisleads(s);
    } else {
      d := ShortDayMisleads(s);
    }
  }

  lemma ShortMonthMisleads(s: string) returns (d: Date)
    requires ParseDate(s).Some? && s[6] == '-'
    ensures ValidDate(d) && Later(s, d) && !Before(d, ParseDate(s).value)
  {
    var p := ParseDate(s).value;
    assert s[5..6] == [s[5]];
    assert p.month == DigitValue(s[5]) && '1' <= s[5] <= '9';
    d := if p.month == 1 then Date(p.year, 2, 1) else Date(p.year, 10, 1);
    YearPrefix(s, p, d);
    FirstDifferenceIs(FormatDate(d), s, 5);
  }

  lemma ShortDayMisleads(s: string) returns (d: Date)
    requires ParseDate(s).Some? && s[6] != '-' && |s| != 10
    ensures ValidDate(d) && Later(s, d) && !Before(d, ParseDate(s).value)
  {
    var p := ParseDate(s).value;
    assert s[8..] == [s[8]];
    assert p.day == DigitValue(s[8]) && '1' <= s[8] <= '9';
    d := if p.day == 1 then Date(p.year, p.month, 2) else Date(p.year, p.month, 10);
    MonthPrefix(s, p, d);
    FirstDifferenceIs(FormatDate(d), s, 8);
  }

  lemma YearPrefix(s: string, p: Date, d: Date)
    requires ParseDate(s) == Some(p) && ValidDate(d) && d.year == p.year
    ensures |FormatDate(d)| == 10 && FormatDate(d)[..5] == s[..5]
    ensures FormatDate(d)[5..7] == Two(d.month) && FormatDate(d)[8..] == Two(d.day)
  {
    YearDigits(s[..4], p.year);
    assert s[..5] == s[..4] + "-";
  }

  lemma MonthPrefix(s: string, p: Date, d: Date)
    requires ParseDate(s) == Some(p) && s[6] != '-' && ValidDate(d) && d.year == p.year && d.month == p.month
    ensures |FormatDate(d)| == 10 && FormatDate(d)[..8] == s[..8] && FormatDate(d)[8..] == Two(d.day)
  {
    YearPrefix(s, p, d);
    assert s[5..7] == [s[5], s[6]];
    TwoDigits(s[5..7], p.month);
    assert s[..8] == s[..5] + s[5..7] + "-";
    assert FormatDate(d)[..8] == FormatDate(d)[..5] + FormatDate(d)[5..7] + "-";
  }

  /**
   The comparison extend makes is sound for every stored date if and only if the accepted text is
   ten characters long; validate_date also accepts shorter ones.
   */
  lemma StringOrderSoundExactly(s: string)
    requires ParseDate(s).Some?
    ensures (forall d :: ValidDate(d) && Later(s, d) ==> Before(d, ParseDate(s).value)) <==> |s| == 10
  {
    if |s| == 10 {
      forall d | ValidDate(d) && Later(s, d) ensures Before(d, ParseDate(s).value) {
        TenCharactersCompare(s, d);
      }
    } else {
      var d := ShortTextMisleads(s);
    }
  }
}
